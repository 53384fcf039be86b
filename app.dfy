/**
 * The running application: the user table, the task table and the login
 * session as mutable fields, and one method per route that updates them in
 * place. Each method is proved to perform exactly the transition of the
 * matching function in `Handlers`.
 */
module WebApp {
  import opened Credentials
  import opened Domain
  import DashboardQuery = Dashboard
  import H = Handlers

  class App {
    var users: map<UserId, User>
    var tasks: map<TaskId, Task>
    var session: Session
    /** The password hash of the deployment. */
    const hash: Hasher

    function Model(): (s: Store)
      reads this
    {
      Store(users, tasks, session)
    }

    ghost predicate Valid()
      reads this
    {
      Inv(Model())
    }

    /** A fresh database with no rows, and no one logged in. */
    constructor (hash: Hasher)
      ensures Valid()
      ensures users == map[] && tasks == map[] && session == Anonymous
      ensures this.hash == hash
    {
      users := map[];
      tasks := map[];
      session := Anonymous;
      this.hash := hash;
    }

    method Index() returns (r: Response)
      requires Valid()
      ensures r == H.Index(Model()).response
    {
      if CurrentUser(Model()).Some? {
        r := H.ToDashboard;
      } else {
        r := Render(LandingPage, NoFlash);
      }
    }

    method Register(isPost: bool, form: H.RegistrationForm, salt: string) returns (r: Response)
      requires Valid()
      modifies this
      ensures Valid()
      ensures H.Step(Model(), r) == H.Register(old(Model()), hash, isPost, form, salt)
    {
      if CurrentUser(Model()).Some? {
        return H.ToDashboard;
      }
      if !isPost {
        return Render(RegisterPage, NoFlash);
      }
      if UsernameTaken(users, form.username) {
        return Redirect(RegisterRoute, UsernameExists);
      }
      if EmailTaken(users, form.email) {
        return Redirect(RegisterRoute, EmailRegistered);
      }
      var id := NextId(users.Keys);
      var user := H.NewUser(hash, form, salt);
      users := users[id := user];
      r := Redirect(LoginRoute, RegistrationSuccessful);
      assert H.Step(Model(), r) == H.Register(old(Model()), hash, isPost, form, salt);
    }

    method Login(isPost: bool, username: string, password: string) returns (r: Response)
      requires Valid()
      modifies this
      ensures Valid()
      ensures H.Step(Model(), r) == H.Login(old(Model()), hash, isPost, username, password)
    {
      if CurrentUser(Model()).Some? {
        return H.ToDashboard;
      }
      if !isPost {
        return Render(LoginPage, NoFlash);
      }
      var found := FindByUsername(users, username);
      if found.Some? && Matches(hash, users[found.value].credential, password) {
        session := Authenticated(found.value);
        r := Redirect(DashboardRoute, WelcomeBack(username));
      } else {
        r := Render(LoginPage, InvalidCredentials);
      }
    }

    method Logout() returns (r: Response)
      requires Valid()
      modifies this
      ensures Valid()
      ensures H.Step(Model(), r) == H.Logout(old(Model()))
    {
      if CurrentUser(Model()).None? {
        return H.ToLogin;
      }
      session := Anonymous;
      r := Redirect(IndexRoute, LoggedOut);
    }

    method Dashboard(cityArg: Option<string>) returns (r: Response)
      requires Valid()
      ensures r == H.ShowDashboard(Model(), cityArg).response
    {
      var current := CurrentUser(Model());
      if current.None? {
        return H.ToLogin;
      }
      var user := users[current.value];
      var city := DashboardQuery.ResolveCity(cityArg, user);
      var rows := DashboardQuery.TaskList(tasks, current.value);
      r := Render(DashboardPage(View(rows, city, DashboardQuery.NepalCities)), NoFlash);
    }

    method AddTask(taskName: Option<string>, now: nat) returns (r: Response)
      requires Valid()
      modifies this
      ensures Valid()
      ensures H.Step(Model(), r) == H.AddTask(old(Model()), taskName, now)
    {
      var current := CurrentUser(Model());
      if current.None? {
        return H.ToLogin;
      }
      if taskName.Some? && taskName.value != "" {
        var id := NextId(tasks.Keys);
        tasks := tasks[id := Task(current.value, taskName.value, Pending, now)];
        r := Redirect(DashboardRoute, TaskAdded);
      } else {
        r := H.ToDashboard;
      }
    }

    method DeleteTask(id: TaskId) returns (r: Response)
      requires Valid()
      modifies this
      ensures Valid()
      ensures H.Step(Model(), r) == H.DeleteTask(old(Model()), id)
    {
      var current := CurrentUser(Model());
      if current.None? {
        return H.ToLogin;
      }
      if id !in tasks {
        return NotFound;
      }
      if tasks[id].owner == current.value {
        tasks := tasks - {id};
        r := Redirect(DashboardRoute, TaskDeleted);
      } else {
        r := H.ToDashboard;
      }
    }

    method ToggleTask(id: TaskId) returns (r: Response)
      requires Valid()
      modifies this
      ensures Valid()
      ensures H.Step(Model(), r) == H.ToggleTask(old(Model()), id)
    {
      var current := CurrentUser(Model());
      if current.None? {
        return H.ToLogin;
      }
      if id !in tasks {
        return NotFound;
      }
      var task := tasks[id];
      if task.owner == current.value {
        tasks := tasks[id := task.(status := Flip(task.status))];
      }
      r := H.ToDashboard;
    }
  }
}
