/**
 * Properties that relate several requests: inverses, idempotence, the
 * indistinguishability of login failures, and a complete user journey.
 */
module Properties {
  import opened Credentials
  import opened Domain
  import opened Handlers

  /** Toggling the same id twice restores the store, whoever asks and
      whether or not the task exists. */
  lemma ToggleTwiceRestores(s: Store, id: TaskId)
    ensures ToggleTask(ToggleTask(s, id).store, id).store == s
  {
  }

  /** Deleting the task just added restores the store. */
  lemma DeleteUndoesAdd(s: Store, name: string, now: nat)
    requires CurrentUser(s).Some? && name != ""
    ensures DeleteTask(AddTask(s, Some(name), now).store, NextId(s.tasks.Keys)).store == s
  {
  }

  /** While someone is logged in, `/`, `/register` and `/login` all send the
      browser to the dashboard and change nothing. */
  lemma SignedInNavigationIsInert(s: Store, hash: Hasher, isPost: bool, form: RegistrationForm, salt: string,
                                  username: string, password: string)
    requires CurrentUser(s).Some?
    ensures Index(s) == Step(s, ToDashboard)
    ensures Register(s, hash, isPost, form, salt) == Step(s, ToDashboard)
    ensures Login(s, hash, isPost, username, password) == Step(s, ToDashboard)
  {
  }

  /** A login for a username nobody has and a login with a wrong password
      for an existing username get the same answer and leave the same store. */
  lemma UnknownUserLooksLikeWrongPassword(s: Store, hash: Hasher, unknown: string, known: UserId,
                                          password: string, wrong: string)
    requires Inv(s) && CurrentUser(s).None?
    requires !UsernameTaken(s.users, unknown)
    requires known in s.users && !Matches(hash, s.users[known].credential, wrong)
    ensures Login(s, hash, true, unknown, password) == Login(s, hash, true, s.users[known].username, wrong)
    ensures Login(s, hash, true, unknown, password) == Step(s, Render(LoginPage, InvalidCredentials))
  {
  }

  /** A user who has just registered can log in with the same username and
      password, whatever the hash function. */
  lemma RegisteredUserCanLogIn(s: Store, hash: Hasher, form: RegistrationForm, salt: string)
    requires Inv(s) && CurrentUser(s).None?
    requires !UsernameTaken(s.users, form.username) && !EmailTaken(s.users, form.email)
    ensures
      var registered := Register(s, hash, true, form, salt).store;
      Login(registered, hash, true, form.username, form.password).store.session == Authenticated(NextId(s.users.Keys))
  {
  }

  /** A dashboard over a table holding one task of the caller lists just that task. */
  lemma OnlyTaskShown(s: Store, id: TaskId, t: Task, cityArg: Option<string>)
    requires CurrentUser(s).Some? && s.tasks == map[id := t] && t.owner == CurrentUser(s).value
    ensures ShowDashboard(s, cityArg).response.page.view.tasks == [Row(id, t)]
  {
    var rows := ShowDashboard(s, cityArg).response.page.view.tasks;
    assert id in s.tasks && s.tasks[id].owner == CurrentUser(s).value;
    assert Row(id, t) in rows;
  }

  /** A dashboard over an empty table lists nothing. */
  lemma NothingShown(s: Store, cityArg: Option<string>)
    requires CurrentUser(s).Some? && s.tasks == map[]
    ensures ShowDashboard(s, cityArg).response.page.view.tasks == []
  {
  }

  const Alice := RegistrationForm("alice", "a@x.com", "pw1", None)

  /** Registering "alice" on an empty database and logging in with her
      password yields one user row, id 1, and a session for it. */
  lemma AliceSignsUp(hash: Hasher, salt: string)
    ensures
      var s1 := Register(Store(map[], map[], Anonymous), hash, true, Alice, salt).store;
      Login(s1, hash, true, "alice", "pw1").store == Store(map[1 := NewUser(hash, Alice, salt)], map[], Authenticated(1))
  {
  }

  /** The store right after "alice" has signed up and logged in. */
  function SignedIn(hash: Hasher, salt: string): (s: Store)
  {
    Store(map[1 := NewUser(hash, Alice, salt)], map[], Authenticated(1))
  }

  lemma AddMilk(hash: Hasher, salt: string, now: nat)
    ensures AddTask(SignedIn(hash, salt), Some("Buy milk"), now).store
      == SignedIn(hash, salt).(tasks := map[1 := Task(1, "Buy milk", Pending, now)])
  {
  }

  lemma ToggleMilk(hash: Hasher, salt: string, now: nat)
    ensures ToggleTask(SignedIn(hash, salt).(tasks := map[1 := Task(1, "Buy milk", Pending, now)]), 1).store
      == SignedIn(hash, salt).(tasks := map[1 := Task(1, "Buy milk", Completed, now)])
  {
  }

  lemma DeleteMilk(hash: Hasher, salt: string, now: nat)
    ensures DeleteTask(SignedIn(hash, salt).(tasks := map[1 := Task(1, "Buy milk", Completed, now)]), 1).store
      == SignedIn(hash, salt)
  {
  }

  /** Register "alice", log in, add "Buy milk", see it pending on the
      dashboard, toggle it to completed, delete it, and see an empty list. */
  lemma Journey(hash: Hasher, salt: string, now: nat)
    ensures
      var s2 := Login(Register(Store(map[], map[], Anonymous), hash, true, Alice, salt).store, hash, true, "alice", "pw1").store;
      var s3 := AddTask(s2, Some("Buy milk"), now).store;
      var s4 := ToggleTask(s3, 1).store;
      var s5 := DeleteTask(s4, 1).store;
      && CurrentUser(s2) == Some(1)
      && ShowDashboard(s3, None).response.page.view.tasks == [Row(1, Task(1, "Buy milk", Pending, now))]
      && ShowDashboard(s4, None).response.page.view.tasks == [Row(1, Task(1, "Buy milk", Completed, now))]
      && ShowDashboard(s5, None).response.page.view.tasks == []
  {
    // The step lemmas are stated on explicit stores so that the solver need
    // not unfold every handler along the whole journey at once.
    AliceSignsUp(hash, salt);
    AddMilk(hash, salt, now);
    ToggleMilk(hash, salt, now);
    DeleteMilk(hash, salt, now);
    var s2 := SignedIn(hash, salt);
    OnlyTaskShown(s2.(tasks := map[1 := Task(1, "Buy milk", Pending, now)]), 1, Task(1, "Buy milk", Pending, now), None);
    OnlyTaskShown(s2.(tasks := map[1 := Task(1, "Buy milk", Completed, now)]), 1, Task(1, "Buy milk", Completed, now), None);
    NothingShown(s2, None);
  }
}
