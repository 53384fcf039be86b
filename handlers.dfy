/**
 * Each route of the web application as a transition on the store: the new
 * store and the response. The `login_required` guard is the first branch of
 * every protected route; flash texts, templates and URLs are reduced to the
 * tags of `Domain.Response`.
 */
module Handlers {
  import opened Credentials
  import opened Domain
  import opened Dashboard

  datatype Step = Step(store: Store, response: Response)

  /** The fields the registration form posts; `city` may be absent. */
  datatype RegistrationForm = RegistrationForm(username: string, email: string, password: string, city: Option<string>)

  const DefaultCity: string := "Kathmandu"

  /** What `login_required` answers an anonymous request with. */
  const ToLogin: Response := Redirect(LoginRoute, LoginRequired)

  const ToDashboard: Response := Redirect(DashboardRoute, NoFlash)

  /** `GET /`. */
  function Index(s: Store): (r: Step)
    ensures r.store == s
    ensures CurrentUser(s).Some? ==> r.response == ToDashboard
    ensures CurrentUser(s).None? ==> r.response == Render(LandingPage, NoFlash)
  {
    if CurrentUser(s).Some? then Step(s, ToDashboard) else Step(s, Render(LandingPage, NoFlash))
  }

  /** The user row registration creates. */
  function NewUser(hash: Hasher, form: RegistrationForm, salt: string): (u: User)
    ensures u.username == form.username && u.email == form.email
    ensures form.city.None? ==> u.preferredCity == DefaultCity
    ensures form.city.Some? ==> u.preferredCity == form.city.value
    ensures Matches(hash, u.credential, form.password)
  {
    var city := if form.city.Some? then form.city.value else DefaultCity;
    User(form.username, form.email, city, SetPassword(hash, salt, form.password))
  }

  /** `GET|POST /register`: the username is checked first, then the email;
      only a form passing both adds a user. */
  function Register(s: Store, hash: Hasher, isPost: bool, form: RegistrationForm, salt: string): (r: Step)
    ensures r.store.tasks == s.tasks && r.store.session == s.session
    ensures CurrentUser(s).Some? ==> r == Step(s, ToDashboard)
    ensures CurrentUser(s).None? && !isPost ==> r == Step(s, Render(RegisterPage, NoFlash))
    ensures CurrentUser(s).None? && isPost && UsernameTaken(s.users, form.username) ==>
      r == Step(s, Redirect(RegisterRoute, UsernameExists))
    ensures (CurrentUser(s).None? && isPost && !UsernameTaken(s.users, form.username)
             && EmailTaken(s.users, form.email)) ==>
      r == Step(s, Redirect(RegisterRoute, EmailRegistered))
    ensures r.store.users != s.users <==>
      CurrentUser(s).None? && isPost && !UsernameTaken(s.users, form.username) && !EmailTaken(s.users, form.email)
    ensures r.store.users != s.users ==>
      && r.response == Redirect(LoginRoute, RegistrationSuccessful)
      && var id := NextId(s.users.Keys);
      && id !in s.users
      && r.store.users.Keys == s.users.Keys + {id}
      && r.store.users[id] == NewUser(hash, form, salt)
      && forall k :: k in s.users ==> r.store.users[k] == s.users[k]
    ensures Inv(s) ==> Inv(r.store)
  {
    if CurrentUser(s).Some? then Step(s, ToDashboard)
    else if !isPost then Step(s, Render(RegisterPage, NoFlash))
    else if UsernameTaken(s.users, form.username) then Step(s, Redirect(RegisterRoute, UsernameExists))
    else if EmailTaken(s.users, form.email) then Step(s, Redirect(RegisterRoute, EmailRegistered))
    else
      var id := NextId(s.users.Keys);
      var users := s.users[id := NewUser(hash, form, salt)];
      assert id in users && id !in s.users;
      Step(s.(users := users), Redirect(LoginRoute, RegistrationSuccessful))
  }

  /** The credential check of `login`: the first user row with that username,
      if its stored credential accepts the password. */
  function Verify(users: map<UserId, User>, hash: Hasher, username: string, password: string): (r: Option<UserId>)
    ensures r.Some? ==>
      r.value in users && users[r.value].username == username && Matches(hash, users[r.value].credential, password)
    ensures UniqueAccounts(users) ==>
      (r.None? <==> forall k :: k in users && users[k].username == username ==> !Matches(hash, users[k].credential, password))
  {
    match FindByUsername(users, username)
    case Some(id) => if Matches(hash, users[id].credential, password) then Some(id) else None
    case None => None
  }

  /** `GET|POST /login`: a session is established only for a user whose
      credential accepts the password; an unknown username and a wrong
      password give the same answer. */
  function Login(s: Store, hash: Hasher, isPost: bool, username: string, password: string): (r: Step)
    ensures r.store.users == s.users && r.store.tasks == s.tasks
    ensures CurrentUser(s).Some? ==> r == Step(s, ToDashboard)
    ensures CurrentUser(s).None? && !isPost ==> r == Step(s, Render(LoginPage, NoFlash))
    ensures CurrentUser(s).None? && isPost ==>
      match Verify(s.users, hash, username, password)
      case Some(id) => r.store.session == Authenticated(id) && r.response == Redirect(DashboardRoute, WelcomeBack(username))
      case None => r == Step(s, Render(LoginPage, InvalidCredentials))
    ensures CurrentUser(r.store).Some? && r.store.session != s.session ==>
      CurrentUser(s).None? && isPost && r.store.session == Authenticated(Verify(s.users, hash, username, password).value)
    ensures Inv(s) ==> Inv(r.store)
  {
    if CurrentUser(s).Some? then Step(s, ToDashboard)
    else if !isPost then Step(s, Render(LoginPage, NoFlash))
    else
      match Verify(s.users, hash, username, password)
      case Some(id) => Step(s.(session := Authenticated(id)), Redirect(DashboardRoute, WelcomeBack(username)))
      case None => Step(s, Render(LoginPage, InvalidCredentials))
  }

  /** `GET /logout`. */
  function Logout(s: Store): (r: Step)
    ensures r.store.users == s.users && r.store.tasks == s.tasks
    ensures CurrentUser(s).None? ==> r == Step(s, ToLogin)
    ensures CurrentUser(s).Some? ==> r.store.session == Anonymous && r.response == Redirect(IndexRoute, LoggedOut)
    ensures CurrentUser(r.store).None?
    ensures Inv(s) ==> Inv(r.store)
  {
    if CurrentUser(s).None? then Step(s, ToLogin)
    else Step(s.(session := Anonymous), Redirect(IndexRoute, LoggedOut))
  }

  /** `GET /dashboard`: a query; nothing stored changes, not even the
      preferred city when another city is asked for. */
  function ShowDashboard(s: Store, cityArg: Option<string>): (r: Step)
    ensures r.store == s
    ensures CurrentUser(s).None? ==> r.response == ToLogin
    ensures CurrentUser(s).Some? ==>
      && var uid := CurrentUser(s).value;
      && r.response.Render? && r.response.page.DashboardPage? && r.response.flash == NoFlash
      && var v := r.response.page.view;
      && v.city == (if cityArg.Some? then cityArg.value else s.users[uid].preferredCity)
      && v.cities == NepalCities
      && (forall i :: 0 <= i < |v.tasks| ==>
            v.tasks[i].id in s.tasks && v.tasks[i].task == s.tasks[v.tasks[i].id] && v.tasks[i].task.owner == uid)
      && (forall k :: k in s.tasks && s.tasks[k].owner == uid ==> Row(k, s.tasks[k]) in v.tasks)
      && (forall i, j :: 0 <= i < j < |v.tasks| ==> v.tasks[i].id != v.tasks[j].id)
      && (forall i, j :: 0 <= i < j < |v.tasks| ==> v.tasks[i].task.createdAt >= v.tasks[j].task.createdAt)
  {
    match CurrentUser(s)
    case None => Step(s, ToLogin)
    case Some(uid) => Step(s, Render(DashboardPage(BuildView(s, uid, cityArg)), NoFlash))
  }

  /** `POST /add_task`: an absent or empty name adds nothing; otherwise one
      pending task owned by the caller is added at a fresh id. The creation
      time is the clock's reading, a parameter here. */
  function AddTask(s: Store, taskName: Option<string>, now: nat): (r: Step)
    ensures r.store.users == s.users && r.store.session == s.session
    ensures CurrentUser(s).None? ==> r == Step(s, ToLogin)
    ensures CurrentUser(s).Some? && (taskName.None? || taskName.value == "") ==> r == Step(s, ToDashboard)
    ensures CurrentUser(s).Some? && taskName.Some? && taskName.value != "" ==>
      && var id := NextId(s.tasks.Keys);
      && id !in s.tasks
      && r.store.tasks.Keys == s.tasks.Keys + {id}
      && r.store.tasks[id] == Task(CurrentUser(s).value, taskName.value, Pending, now)
      && (forall k :: k in s.tasks ==> r.store.tasks[k] == s.tasks[k])
      && r.response == Redirect(DashboardRoute, TaskAdded)
    ensures Inv(s) ==> Inv(r.store)
  {
    match CurrentUser(s)
    case None => Step(s, ToLogin)
    case Some(uid) =>
      if taskName.None? || taskName.value == "" then Step(s, ToDashboard)
      else
        var id := NextId(s.tasks.Keys);
        var task := Task(uid, taskName.value, Pending, now);
        Step(s.(tasks := s.tasks[id := task]), Redirect(DashboardRoute, TaskAdded))
  }

  /** `GET /delete_task/<id>`: a missing id is not found; a task of another
      user is silently kept; the owner's task is removed. */
  function DeleteTask(s: Store, id: TaskId): (r: Step)
    ensures r.store.users == s.users && r.store.session == s.session
    ensures CurrentUser(s).None? ==> r == Step(s, ToLogin)
    ensures CurrentUser(s).Some? && id !in s.tasks ==> r == Step(s, NotFound)
    ensures CurrentUser(s).Some? && id in s.tasks && s.tasks[id].owner != CurrentUser(s).value ==>
      r == Step(s, ToDashboard)
    ensures r.store.tasks != s.tasks <==>
      CurrentUser(s).Some? && id in s.tasks && s.tasks[id].owner == CurrentUser(s).value
    ensures r.store.tasks != s.tasks ==>
      && r.store.tasks.Keys == s.tasks.Keys - {id}
      && (forall k :: k in r.store.tasks ==> r.store.tasks[k] == s.tasks[k])
      && r.response == Redirect(DashboardRoute, TaskDeleted)
    ensures Inv(s) ==> Inv(r.store)
  {
    match CurrentUser(s)
    case None => Step(s, ToLogin)
    case Some(uid) =>
      if id !in s.tasks then Step(s, NotFound)
      else if s.tasks[id].owner == uid then
        var tasks := s.tasks - {id};
        assert id !in tasks;
        Step(s.(tasks := tasks), Redirect(DashboardRoute, TaskDeleted))
      else Step(s, ToDashboard)
  }

  /** `GET /toggle_task/<id>`: a missing id is not found; a task of another
      user is silently kept; the owner's task flips between pending and
      completed and nothing else changes. */
  function ToggleTask(s: Store, id: TaskId): (r: Step)
    ensures r.store.users == s.users && r.store.session == s.session
    ensures r.store.tasks.Keys == s.tasks.Keys
    ensures CurrentUser(s).None? ==> r == Step(s, ToLogin)
    ensures CurrentUser(s).Some? && id !in s.tasks ==> r == Step(s, NotFound)
    ensures CurrentUser(s).Some? && id in s.tasks && s.tasks[id].owner != CurrentUser(s).value ==>
      r == Step(s, ToDashboard)
    ensures r.store.tasks != s.tasks <==>
      CurrentUser(s).Some? && id in s.tasks && s.tasks[id].owner == CurrentUser(s).value
    ensures r.store.tasks != s.tasks ==>
      && r.response == ToDashboard
      && (s.tasks[id].status == Pending ==> r.store.tasks[id].status == Completed)
      && (s.tasks[id].status == Completed ==> r.store.tasks[id].status == Pending)
      && r.store.tasks[id].owner == s.tasks[id].owner
      && r.store.tasks[id].name == s.tasks[id].name
      && r.store.tasks[id].createdAt == s.tasks[id].createdAt
      && (forall k :: k in s.tasks && k != id ==> r.store.tasks[k] == s.tasks[k])
    ensures Inv(s) ==> Inv(r.store)
  {
    match CurrentUser(s)
    case None => Step(s, ToLogin)
    case Some(uid) =>
      if id !in s.tasks then Step(s, NotFound)
      else if s.tasks[id].owner == uid then
        var task := s.tasks[id];
        Step(s.(tasks := s.tasks[id := task.(status := Flip(task.status))]), ToDashboard)
      else Step(s, ToDashboard)
  }
}
