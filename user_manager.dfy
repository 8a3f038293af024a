/**
 * The registry of users: a map from uid to the registered User instance,
 * and a single logged-in pointer that may only point at a registered
 * instance whose password was presented.
 */
module UserRegistry {
  import opened Errors
  import opened Users

  /** The registry's state as a value: the user map and the logged-in user. */
  datatype State = State(users: map<string, User>, loggedIn: User?)

  /** `user` is the very instance registered under its own uid. */
  predicate Registered(users: map<string, User>, user: User)
  {
    user.uid in users && users[user.uid] == user
  }

  /** Each key maps to a user with that uid, and a logged-in user is the
      instance stored under its own uid. */
  predicate Consistent(s: State)
  {
    && (forall k | k in s.users :: s.users[k].uid == k)
    && (s.loggedIn != null ==> Registered(s.users, s.loggedIn))
  }

  /** What `addUser` does to the state. */
  function Register(s: State, user: User): (r: Result<State>)
    ensures r.Failure? <==> user.uid in s.users
    ensures r.Failure? ==> r.error == AlreadyRegistered(user.uid)
    ensures r.Success? ==> r.value.users.Keys == s.users.Keys + {user.uid}
    ensures r.Success? ==> Registered(r.value.users, user) && r.value.loggedIn == s.loggedIn
    ensures r.Success? ==> forall k | k in s.users :: r.value.users[k] == s.users[k]
    ensures r.Success? && Consistent(s) ==> Consistent(r.value)
  {
    if user.uid in s.users then Failure(AlreadyRegistered(user.uid))
    else Success(s.(users := s.users[user.uid := user]))
  }

  /** What `login` does to the state. */
  function Authenticate(s: State, user: User, password: string): (r: Result<State>)
    ensures r.Success? <==> Registered(s.users, user) && user.IsValid(password)
    ensures !Registered(s.users, user) ==> r == Failure(NotRegistered)
    ensures Registered(s.users, user) && !user.IsValid(password) ==> r == Failure(InvalidPassword)
    ensures r.Success? ==> r.value.users == s.users && r.value.loggedIn == user
    ensures r.Success? && Consistent(s) ==> Consistent(r.value)
  {
    if !Registered(s.users, user) then Failure(NotRegistered)
    else if !user.IsValid(password) then Failure(InvalidPassword)
    else Success(s.(loggedIn := user))
  }

  /** What `logout` does to the state. */
  function ClearSession(s: State): (r: State)
    ensures r.users == s.users && r.loggedIn == null
    ensures Consistent(s) ==> Consistent(r)
  {
    s.(loggedIn := null)
  }

  /** One call on the registry. */
  datatype Call =
    | AddUser(user: User)
    | Login(user: User, password: string)
    | Logout

  /** The state after one call; a call that fails leaves the state as it was. */
  function Apply(s: State, c: Call): (r: State)
    ensures Consistent(s) ==> Consistent(r)
    ensures s.users.Keys <= r.users.Keys
    ensures forall k | k in s.users :: r.users[k] == s.users[k]
  {
    match c
    case AddUser(u) => (match Register(s, u) case Success(t) => t case Failure(_) => s)
    case Login(u, p) => (match Authenticate(s, u, p) case Success(t) => t case Failure(_) => s)
    case Logout => ClearSession(s)
  }

  /** The state after a sequence of calls. */
  function Replay(s: State, calls: seq<Call>): State
    decreases |calls|
  {
    if calls == [] then s else Replay(Apply(s, calls[0]), calls[1..])
  }

  /** No sequence of calls breaks the registry's invariant. */
  lemma {:induction false} ReplayConsistent(s: State, calls: seq<Call>)
    requires Consistent(s)
    ensures Consistent(Replay(s, calls))
    decreases |calls|
  {
    if calls != [] {
      ReplayConsistent(Apply(s, calls[0]), calls[1..]);
    }
  }

  /** A registration is never undone or replaced by any later call: the
      second `addUser` for a uid leaves the first instance in place. */
  lemma {:induction false} ReplayKeepsRegistrations(s: State, calls: seq<Call>)
    ensures s.users.Keys <= Replay(s, calls).users.Keys
    ensures forall k | k in s.users :: Replay(s, calls).users[k] == s.users[k]
    decreases |calls|
  {
    if calls != [] {
      ReplayKeepsRegistrations(Apply(s, calls[0]), calls[1..]);
    }
  }

  /** Logging out twice is the same as logging out once. */
  lemma LogoutIdempotent(s: State)
    ensures ClearSession(ClearSession(s)) == ClearSession(s)
  {
  }

  /** A second instance carrying a registered uid cannot log in, whatever
      password it presents. */
  lemma OtherInstanceRejected(s: State, registered: User, impostor: User, password: string)
    requires Consistent(s) && Registered(s.users, registered)
    requires impostor != registered && impostor.uid == registered.uid
    ensures Authenticate(s, impostor, password) == Failure(NotRegistered)
  {
  }

  class UserManager {
    var userMap: map<string, User>
    var loggedInUser: User?

    function Snapshot(): State
      reads this
    {
      State(userMap, loggedInUser)
    }

    ghost predicate Valid()
      reads this
    {
      Consistent(Snapshot())
    }

    /** An empty registry with nobody logged in. */
    constructor ()
      ensures Valid()
      ensures userMap == map[] && loggedInUser == null
    {
      userMap := map[];
      loggedInUser := null;
    }

    /** Registers `user` under its uid unless that uid is taken. */
    method AddUser(user: User) returns (out: Outcome)
      requires Valid()
      modifies this
      ensures Valid()
      ensures Snapshot() == Apply(old(Snapshot()), Call.AddUser(user))
      ensures user.uid in old(userMap) ==>
        out == Fail(AlreadyRegistered(user.uid)) && unchanged(this)
      ensures user.uid !in old(userMap) ==>
        && out == Pass
        && userMap == old(userMap)[user.uid := user]
        && loggedInUser == old(loggedInUser)
    {
      if user.uid in userMap {
        return Fail(AlreadyRegistered(user.uid));
      }
      userMap := userMap[user.uid := user];
      out := Pass;
    }

    /** The registered users, as a map from uid to user. */
    function GetUserMap(): (m: map<string, User>)
      reads this
      requires Valid()
      ensures forall k | k in m :: m[k].uid == k
    {
      userMap
    }

    /** Makes `user` the logged-in user, provided it is the registered
        instance and `password` is valid for it. */
    method Login(user: User, password: string) returns (out: Outcome)
      requires Valid()
      modifies this
      ensures Valid()
      ensures Snapshot() == Apply(old(Snapshot()), Call.Login(user, password))
      ensures userMap == old(userMap)
      ensures !Registered(userMap, user) ==>
        out == Fail(NotRegistered) && loggedInUser == old(loggedInUser)
      ensures Registered(userMap, user) && !user.IsValid(password) ==>
        out == Fail(InvalidPassword) && loggedInUser == old(loggedInUser)
      ensures Registered(userMap, user) && user.IsValid(password) ==>
        out == Pass && loggedInUser == user
    {
      if !(user.uid in userMap && userMap[user.uid] == user) {
        return Fail(NotRegistered);
      }
      if !user.IsValid(password) {
        return Fail(InvalidPassword);
      }
      loggedInUser := user;
      out := Pass;
    }

    /** Clears the logged-in user; never fails. */
    method Logout()
      requires Valid()
      modifies this
      ensures Valid()
      ensures Snapshot() == Apply(old(Snapshot()), Call.Logout)
      ensures loggedInUser == null && userMap == old(userMap)
    {
      loggedInUser := null;
    }

    /** The logged-in user, or null; when present it is the instance
        registered under its uid. */
    function GetLoggedInUser(): (u: User?)
      reads this
      requires Valid()
      ensures u != null ==> Registered(userMap, u)
    {
      loggedInUser
    }
  }
}
