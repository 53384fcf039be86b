/**
 * The application's data: the user and task tables, the login session, and the
 * outcome of a request, together with the table queries the handlers run.
 */
module Domain {
  import opened Credentials

  type UserId = nat
  /** Task ids come from the route's `<int:task_id>` converter, which only
      matches non-negative integers. */
  type TaskId = nat

  datatype Option<+T> = None | Some(value: T)

  datatype Status = Pending | Completed

  /** The status a toggle moves a task to. */
  function Flip(s: Status): (r: Status)
    ensures r != s
  {
    if s == Pending then Completed else Pending
  }

  datatype User = User(username: string, email: string, preferredCity: string, credential: Credential)

  datatype Task = Task(owner: UserId, name: string, status: Status, createdAt: nat)

  datatype Session = Anonymous | Authenticated(uid: UserId)

  /** The whole persistent and session state one request sees. */
  datatype Store = Store(users: map<UserId, User>, tasks: map<TaskId, Task>, session: Session)

  /** A dashboard line: a task together with its id. */
  datatype Row = Row(id: TaskId, task: Task)

  datatype View = View(tasks: seq<Row>, city: string, cities: seq<string>)

  datatype Route = IndexRoute | RegisterRoute | LoginRoute | DashboardRoute

  /** The flash message a response carries, by meaning rather than text. */
  datatype Flash =
    | NoFlash
    | LoginRequired
    | UsernameExists
    | EmailRegistered
    | RegistrationSuccessful
    | WelcomeBack(username: string)
    | InvalidCredentials
    | LoggedOut
    | TaskAdded
    | TaskDeleted

  datatype Page = LandingPage | RegisterPage | LoginPage | DashboardPage(view: View)

  datatype Response = Redirect(to: Route, flash: Flash) | Render(page: Page, flash: Flash) | NotFound

  /** Usernames and emails are unique, every task belongs to an existing user,
      and a session only ever names an existing user. */
  ghost predicate Inv(s: Store)
  {
    && UniqueAccounts(s.users)
    && (forall t :: t in s.tasks ==> s.tasks[t].owner in s.users)
    && (s.session.Authenticated? ==> s.session.uid in s.users)
  }

  ghost predicate UniqueAccounts(users: map<UserId, User>)
  {
    forall a, b :: a in users && b in users && a != b ==>
      users[a].username != users[b].username && users[a].email != users[b].email
  }

  /** `current_user`: the session's user id, reloaded from the user table; a
      session naming no stored user is anonymous. */
  function CurrentUser(s: Store): (r: Option<UserId>)
    ensures r.Some? ==> r.value in s.users && s.session == Authenticated(r.value)
    ensures r.None? ==> s.session.Anonymous? || s.session.uid !in s.users
  {
    if s.session.Authenticated? && s.session.uid in s.users then Some(s.session.uid) else None
  }

  predicate UsernameTaken(users: map<UserId, User>, name: string)
  {
    exists k :: k in users && users[k].username == name
  }

  predicate EmailTaken(users: map<UserId, User>, email: string)
  {
    exists k :: k in users && users[k].email == email
  }

  /** `m` is no greater than any member of `keys`. */
  predicate IsLowerBound(keys: set<nat>, m: nat)
  {
    forall k :: k in keys ==> m <= k
  }

  /** `m` is no smaller than any member of `keys`. */
  predicate IsUpperBound(keys: set<nat>, m: nat)
  {
    forall k :: k in keys ==> k <= m
  }

  // LeastExists, GreatestExists and Dashboard.NewestExists are the same
  // induction over a finite set, one per order. They are kept separate so
  // that each names its order directly, with no function-valued parameter
  // for the solver to instantiate.
  lemma {:induction false} LeastExists(keys: set<nat>)
    requires keys != {}
    ensures exists m :: m in keys && IsLowerBound(keys, m)
  {
    var x :| x in keys;
    var rest := keys - {x};
    if rest == {} {
      assert keys == {x};
      assert IsLowerBound(keys, x);
    } else {
      LeastExists(rest);
      var m :| m in rest && IsLowerBound(rest, m);
      var least := if x < m then x else m;
      assert IsLowerBound(keys, least) by {
        forall k | k in keys ensures least <= k {
          if k != x { assert k in rest; }
        }
      }
      assert least in keys;
    }
  }

  lemma {:induction false} GreatestExists(keys: set<nat>)
    requires keys != {}
    ensures exists m :: m in keys && IsUpperBound(keys, m)
  {
    var x :| x in keys;
    var rest := keys - {x};
    if rest == {} {
      assert keys == {x};
      assert IsUpperBound(keys, x);
    } else {
      GreatestExists(rest);
      var m :| m in rest && IsUpperBound(rest, m);
      var greatest := if m < x then x else m;
      assert IsUpperBound(keys, greatest) by {
        forall k | k in keys ensures k <= greatest {
          if k != x { assert k in rest; }
        }
      }
      assert greatest in keys;
    }
  }

  /** `filter_by(username=...).first()`: the user with that username that comes
      first in row order, if there is one. */
  function FindByUsername(users: map<UserId, User>, name: string): (r: Option<UserId>)
    ensures r.Some? <==> UsernameTaken(users, name)
    ensures r.Some? ==> r.value in users && users[r.value].username == name
    ensures r.Some? ==> forall k :: k in users && users[k].username == name ==> r.value <= k
  {
    var ids := set k | k in users && users[k].username == name;
    assert forall k :: k in users && users[k].username == name ==> k in ids;
    if ids == {} then None
    else
      LeastExists(ids);
      var m :| m in ids && IsLowerBound(ids, m);
      Some(m)
  }

  /** The id the table gives a new row: one past the largest id in use, or 1
      for an empty table (integer primary keys in SQLite). */
  function NextId(keys: set<nat>): (r: nat)
    ensures r >= 1
    ensures r !in keys
    ensures forall k :: k in keys ==> k < r
    ensures keys == {} ==> r == 1
    ensures keys != {} ==> r - 1 in keys
  {
    if keys == {} then 1
    else
      GreatestExists(keys);
      var m :| m in keys && IsUpperBound(keys, m);
      m + 1
  }
}
