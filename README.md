# Weatherly task tracker: a Dafny model of its request handlers

Weatherly is a small Flask application. A visitor registers with a username,
email, password and preferred city, and then logs in. On the dashboard they
see their to-do tasks, newest first, and the weather for a city. They can add
tasks, delete them and toggle them between *pending* and *completed*. All of
the logic is in the route handlers of `Project/app.py`. This project models
those handlers over an in-memory copy of the two database tables and the
login session.

Layout, one module per file:

- `credentials.dfy` (`Credentials`): the stored password credential. The
  digest function is injected as a `Hasher` value. `Matches` plays the role
  of `check_password` and `SetPassword` the role of `set_password`.
- `domain.dfy` (`Domain`): users, tasks, the session, the response tags and
  the state invariant `Inv`. It also holds the table queries the handlers
  issue: lookup by username, "is this username or email taken", and the id
  SQLite gives a new row.
- `dashboard.dfy` (`Dashboard`): the dashboard's two queries. One lists the
  caller's tasks by `created_at` descending. The other picks the city to show.
- `handlers.dfy` (`Handlers`): every route as a pure transition
  `Store -> Step(store, response)`. Its contract states the route's rules:
  the `login_required` guard, the check order, ownership gating, the
  not-found case, and what does not change.
- `app.dfy` (`WebApp.App`): the application as a class. It has mutable
  `users`, `tasks` and `session` fields and one method per route that updates
  them in place. Each method is proved to make exactly the transition of the
  matching `Handlers` function, and to keep `Inv`.
- `properties.dfy` (`Properties`): facts that span several requests:
  - toggling twice restores the store;
  - deleting a task right after adding it undoes the add;
  - a logged-in user gets the same "go to dashboard" answer from `/`,
    `/register` and `/login`;
  - an unknown user gets the same answer as a wrong password;
  - a user who has just registered can log in;
  - a full journey: register "alice", log in, add "Buy milk", toggle it,
    delete it.

Outcome tags stand in for web behaviour. `Redirect(route, flash)`,
`Render(page, flash)` and `NotFound` replace `redirect(url_for(...))`,
`render_template` and `get_or_404`. Flash messages are kept by meaning, not
by their text.

## Model

| member | source | states |
|---|---|---|
| `Credentials.SetPassword` | Project/app.py:49-50 | the credential stored at registration carries the given salt and accepts the password it was made from |
| `Credentials.Matches` | Project/app.py:71 | `check_password`: recomputing the digest of the attempt with the stored salt gives the stored digest |
| `Credentials.AcceptsExactlyItsPassword` | Project/app.py:71 | if the hash has no collisions, a stored credential accepts exactly its own password; any other string is refused |
| `Domain.Flip` | Project/app.py:143 | a toggle always changes the status, between its two values |
| `Domain.CurrentUser` | Project/app.py:17-19 | the current user is the session's id, and only when that id names a stored user; otherwise the request is anonymous |
| `Domain.UsernameTaken` | Project/app.py:41 | the registration check on the username holds when some stored user has this username |
| `Domain.EmailTaken` | Project/app.py:45 | the registration check on the email holds when some stored user has this email |
| `Domain.FindByUsername` | Project/app.py:69 | finds a user exactly when the username is taken; the result has that username and is the first such row in id order |
| `Domain.NextId` | Project/app.py:120 | a new row's id is 1 for an empty table and otherwise one past the largest id in use, so it is fresh and above every id in use |
| `Dashboard.Newest` | Project/app.py:93 | picks a member of the set whose `created_at` is no earlier than any other member's |
| `Dashboard.NewestFirst` | Project/app.py:93 | lists each task of the set exactly once, as (id, task) rows, ordered by non-increasing `created_at` |
| `Dashboard.OwnedBy` | Project/app.py:93 | selects exactly the ids of the tasks whose owner is the given user |
| `Dashboard.TaskList` | Project/app.py:93 | the dashboard rows are exactly the caller's tasks, each once, ordered by non-increasing `created_at` |
| `Dashboard.ResolveCity` | Project/app.py:92 | the city is the query argument when one is given, even an empty one, and otherwise the user's stored preferred city |
| `Dashboard.BuildView` | Project/app.py:92-106 | the page shows the resolved city, the caller's tasks and the fixed list of five Nepali cities |
| `Handlers.Index` | Project/app.py:23-27 | `/` sends a logged-in user to the dashboard and shows the landing page otherwise; no state changes |
| `Handlers.NewUser` | Project/app.py:39-50 | the new row has the form's username and email; its city is the form's city if present, else "Kathmandu"; its credential accepts the form's password |
| `Handlers.Register` | Project/app.py:30-57 | a logged-in user is sent to the dashboard. A GET shows the form. A taken username is rejected before the email is looked at; a taken email is rejected otherwise. The users change exactly when both checks pass, and then exactly one user is added at a fresh id. Tasks and session never change, and `Inv` is preserved |
| `Handlers.Verify` | Project/app.py:69-71 | a user is returned only when their username matches and their credential accepts the password; when usernames are unique, none is returned exactly when no user with that username accepts it |
| `Handlers.Login` | Project/app.py:60-78 | a logged-in user is sent to the dashboard with nothing changed. On a POST the session becomes authenticated for the verified user. Otherwise the store is unchanged and the answer is "invalid username or password". Users and tasks never change, and any new session was established by a successful POST |
| `Handlers.Logout` | Project/app.py:81-86 | an anonymous request is sent to login unchanged. Otherwise the session becomes anonymous and the browser is sent to `/`. Afterwards no one is logged in, and users and tasks are unchanged |
| `Handlers.ShowDashboard` | Project/app.py:89-106 | nothing stored changes, including the preferred city. An anonymous request is sent to login. Otherwise the page lists exactly the caller's tasks, each once, newest first, with the requested or the preferred city |
| `Handlers.AddTask` | Project/app.py:109-124 | an anonymous request is sent to login. An absent or empty name changes nothing. Otherwise exactly one task is added at a fresh id: owned by the caller, with the given name, pending, created now. Every other task, every user and the session are untouched |
| `Handlers.DeleteTask` | Project/app.py:127-135 | an anonymous request is sent to login. A missing id is not found and changes nothing. Another user's task is silently kept. The tasks change exactly when the caller owns the task, and then exactly that id is removed with all other tasks and users untouched |
| `Handlers.ToggleTask` | Project/app.py:138-145 | an anonymous request is sent to login. A missing id is not found. Another user's task is silently kept. The tasks change exactly when the caller owns the task, and then only its status flips between pending and completed; name, owner, timestamp and every other task stay the same |
| `WebApp.App.constructor` | Project/app.py:176-178 | the application starts with empty tables and no one logged in, which satisfies the invariant |
| `WebApp.App.Index` | Project/app.py:23-27 | answers as `Handlers.Index` on the current state |
| `WebApp.App.Register` | Project/app.py:30-57 | updates the user table in place exactly as `Handlers.Register`, keeping `Inv` |
| `WebApp.App.Login` | Project/app.py:60-78 | updates the session in place exactly as `Handlers.Login`, keeping `Inv` |
| `WebApp.App.Logout` | Project/app.py:81-86 | clears the session in place exactly as `Handlers.Logout`, keeping `Inv` |
| `WebApp.App.Dashboard` | Project/app.py:89-106 | answers as `Handlers.ShowDashboard` on the current state, changing nothing |
| `WebApp.App.AddTask` | Project/app.py:109-124 | inserts into the task table in place exactly as `Handlers.AddTask`, keeping `Inv` |
| `WebApp.App.DeleteTask` | Project/app.py:127-135 | deletes from the task table in place exactly as `Handlers.DeleteTask`, keeping `Inv` |
| `WebApp.App.ToggleTask` | Project/app.py:138-145 | assigns the task's status in place exactly as `Handlers.ToggleTask`, keeping `Inv` |
| `Properties.ToggleTwiceRestores` | Project/app.py:141-143 | toggling the same id twice gives back the original store, for every caller and every id |
| `Properties.DeleteUndoesAdd` | Project/app.py:114-133 | the owner deleting the task just added restores the store as it was before the add |
| `Properties.SignedInNavigationIsInert` | Project/app.py:25-63 | while logged in, `/`, `/register` and `/login` (GET or POST) all send the browser to the dashboard and change nothing |
| `Properties.UnknownUserLooksLikeWrongPassword` | Project/app.py:69-76 | a login with an unknown username and a login with a wrong password for an existing one give the same answer and the same, unchanged store |
| `Properties.RegisteredUserCanLogIn` | Project/app.py:49-72 | after a successful registration, logging in with the same username and password authenticates the new user |
| `Properties.OnlyTaskShown` | Project/app.py:93 | a table holding one task of the caller shows exactly that row |
| `Properties.NothingShown` | Project/app.py:93 | an empty task table shows an empty list |
| `Properties.AliceSignsUp` | Project/app.py:30-78 | registering "alice" on an empty database and logging in gives one user with id 1 and a session for that user |
| `Properties.AddMilk` | Project/app.py:109-124 | adding "Buy milk" for that user creates task 1, pending, owned by user 1 |
| `Properties.ToggleMilk` | Project/app.py:138-145 | toggling task 1 makes it completed and changes nothing else |
| `Properties.DeleteMilk` | Project/app.py:127-135 | deleting task 1 leaves an empty task table |
| `Properties.Journey` | Project/app.py:30-145 | register, log in, add "Buy milk" (dashboard shows it pending), toggle (shows it completed), delete (shows an empty list) |

## Left out

- `get_weather` (Project/app.py:148-173) makes an HTTP call to OpenWeatherMap with a timeout. It parses JSON, rounds a float temperature and title-cases a string. The dashboard view here has no weather field, because this is I/O on floats.
- Templates, flash wording, `url_for` URLs and the `next` parameter that `login_required` adds are not modelled. Only the outcome tags are kept.
- SQLAlchemy sessions, `commit`, `db.create_all` and the `login_manager` set-up are replaced by the maps of `Store`. `load_user` is kept, as `Domain.CurrentUser`.
- `models.py` is not part of this model. Three things come from it:
  - a task's initial status `pending`, and `created_at` taken from the clock (a `now` parameter here);
  - the hashing of `set_password` and `check_password`: the digest function is a parameter (`Hasher`) and the random salt is an argument of `Register`;
  - column constraints, such as whether a username may be NULL.
- Form fields are taken as present strings for username, email and password. A missing field (`None`) is not modelled, because what the database does with it depends on those column constraints. `city`, `task_name` and the `city` query argument are optional values, as in the source.
- `Domain.NextId`: a new row gets the largest id plus one, or 1 for an empty table, as SQLite does for integer primary keys. So the id of the newest task is reused after that task is deleted. SQLite's random choice once the largest id reaches 2^63-1 is not modelled.
- `Handlers.DeleteTask`: an id at or above 2^63 in the URL is treated as a missing id (`NotFound`). In the source the SQLite driver cannot bind such an integer and raises, which becomes a server error rather than a 404. The store is unchanged either way.
- `Handlers.ToggleTask`: an id at or above 2^63 in the URL is treated as a missing id (`NotFound`). In the source the SQLite driver cannot bind such an integer and raises, which becomes a server error rather than a 404. The store is unchanged either way.
- `Dashboard.NewestFirst`: tasks with equal `created_at` are listed by descending id. The source's `ORDER BY created_at DESC` leaves their order open. The contract itself states only the non-increasing timestamps.
- `Credentials.AcceptsExactlyItsPassword`: it assumes a collision-free hash. A real salted hash only makes collisions improbable, so "a changed password fails" is proved only under that assumption.
- `WebApp.App.constructor` builds only a fresh database. `db.create_all()` keeps the rows already in `weatherly.db` when the application restarts; such a restarted database is the state reached by replaying, from the fresh one, the requests that built it.
- Concurrent requests, last-write-wins between two sessions, and session expiry belong to the server and the database, not to the handlers.
- `Project/config.py` only reads settings from the environment. It has no logic.
