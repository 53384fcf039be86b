/**
 * The two pure queries of the dashboard: the caller's tasks, newest first, and
 * the city whose weather is shown.
 */
module Dashboard {
  import opened Domain

  /** The city switcher's fixed list. */
  const NepalCities: seq<string> := ["Kathmandu", "Pokhara", "Lalitpur", "Bhaktapur", "Biratnagar"]

  /** `a` sorts no later than `b` in `ORDER BY created_at DESC`; equal
      timestamps are ordered by descending id. */
  predicate NoOlder(tasks: map<TaskId, Task>, a: TaskId, b: TaskId)
    requires a in tasks && b in tasks
  {
    tasks[a].createdAt > tasks[b].createdAt || (tasks[a].createdAt == tasks[b].createdAt && a >= b)
  }

  /** `n` sorts no later than any member of `ids`. */
  predicate IsNewest(ids: set<TaskId>, tasks: map<TaskId, Task>, n: TaskId)
    requires n in tasks && ids <= tasks.Keys
  {
    forall k :: k in ids ==> NoOlder(tasks, n, k)
  }

  lemma {:induction false} NewestExists(ids: set<TaskId>, tasks: map<TaskId, Task>)
    requires ids != {} && ids <= tasks.Keys
    ensures exists n :: n in ids && IsNewest(ids, tasks, n)
  {
    var x :| x in ids;
    var rest := ids - {x};
    if rest == {} {
      assert ids == {x};
      assert IsNewest(ids, tasks, x);
    } else {
      NewestExists(rest, tasks);
      var m :| m in rest && IsNewest(rest, tasks, m);
      var newest := if NoOlder(tasks, m, x) then m else x;
      assert IsNewest(ids, tasks, newest) by {
        forall k | k in ids ensures NoOlder(tasks, newest, k) {
          if k != x {
            assert k in rest;
            assert NoOlder(tasks, m, k);
            if newest == x {
              assert NoOlder(tasks, x, m);
            }
          }
        }
      }
      assert newest in ids;
    }
  }

  /** The first task of `ids` in newest-first order. */
  function Newest(ids: set<TaskId>, tasks: map<TaskId, Task>): (n: TaskId)
    requires ids != {} && ids <= tasks.Keys
    ensures n in ids
    ensures forall k :: k in ids ==> tasks[n].createdAt >= tasks[k].createdAt
  {
    NewestExists(ids, tasks);
    var n :| n in ids && IsNewest(ids, tasks, n);
    n
  }

  /** `rows` lists the tasks of `ids`, each once and paired with its id, in
      non-increasing creation time. */
  ghost predicate ListsNewestFirst(rows: seq<Row>, ids: set<TaskId>, tasks: map<TaskId, Task>)
    requires ids <= tasks.Keys
  {
    && |rows| == |ids|
    && (forall i :: 0 <= i < |rows| ==> rows[i].id in ids && rows[i].task == tasks[rows[i].id])
    && (forall k :: k in ids ==> Row(k, tasks[k]) in rows)
    && (forall i, j :: 0 <= i < j < |rows| ==> rows[i].id != rows[j].id)
    && (forall i, j :: 0 <= i < j < |rows| ==> rows[i].task.createdAt >= rows[j].task.createdAt)
  }

  lemma PrependCovers(n: TaskId, rest: seq<Row>, ids: set<TaskId>, tasks: map<TaskId, Task>)
    requires ids <= tasks.Keys && n in ids
    requires forall k :: k in ids - {n} ==> Row(k, tasks[k]) in rest
    ensures forall k :: k in ids ==> Row(k, tasks[k]) in [Row(n, tasks[n])] + rest
  {
  }

  lemma PrependKeepsOrder(n: TaskId, rest: seq<Row>, ids: set<TaskId>, tasks: map<TaskId, Task>)
    requires ids <= tasks.Keys && n in ids
    requires forall k :: k in ids ==> tasks[n].createdAt >= tasks[k].createdAt
    requires forall i :: 0 <= i < |rest| ==> rest[i].id in ids - {n} && rest[i].task == tasks[rest[i].id]
    requires forall i, j :: 0 <= i < j < |rest| ==> rest[i].id != rest[j].id
    requires forall i, j :: 0 <= i < j < |rest| ==> rest[i].task.createdAt >= rest[j].task.createdAt
    ensures var rows := [Row(n, tasks[n])] + rest;
      && (forall i, j :: 0 <= i < j < |rows| ==> rows[i].id != rows[j].id)
      && (forall i, j :: 0 <= i < j < |rows| ==> rows[i].task.createdAt >= rows[j].task.createdAt)
  {
  }

  /** Putting the newest task in front of a newest-first listing of the others
      gives a newest-first listing of all. */
  lemma PrependNewest(n: TaskId, rest: seq<Row>, ids: set<TaskId>, tasks: map<TaskId, Task>)
    requires ids <= tasks.Keys && n in ids
    requires forall k :: k in ids ==> tasks[n].createdAt >= tasks[k].createdAt
    requires ListsNewestFirst(rest, ids - {n}, tasks)
    ensures ListsNewestFirst([Row(n, tasks[n])] + rest, ids, tasks)
  {
    // Proving the whole predicate in one obligation is at the solver's
    // limit; the two helpers each carry one part of it.
    var rows := [Row(n, tasks[n])] + rest;
    assert |ids - {n}| == |ids| - 1;
    assert forall i :: 0 < i < |rows| ==> rows[i] == rest[i - 1];
    PrependCovers(n, rest, ids, tasks);
    PrependKeepsOrder(n, rest, ids, tasks);
  }

  /** The tasks of `ids`, newest first. */
  function NewestFirst(ids: set<TaskId>, tasks: map<TaskId, Task>): (rows: seq<Row>)
    requires ids <= tasks.Keys
    ensures ListsNewestFirst(rows, ids, tasks)
    decreases ids
  {
    if ids == {} then []
    else
      var n := Newest(ids, tasks);
      var rest := NewestFirst(ids - {n}, tasks);
      PrependNewest(n, rest, ids, tasks);
      [Row(n, tasks[n])] + rest
  }

  /** The ids of the tasks `owner` owns. */
  function OwnedBy(tasks: map<TaskId, Task>, owner: UserId): (ids: set<TaskId>)
    ensures forall k :: k in ids <==> k in tasks && tasks[k].owner == owner
  {
    set k | k in tasks && tasks[k].owner == owner
  }

  /** The dashboard's task query: the owner's tasks, newest first. */
  function TaskList(tasks: map<TaskId, Task>, owner: UserId): (rows: seq<Row>)
    ensures forall i :: 0 <= i < |rows| ==>
      rows[i].id in tasks && rows[i].task == tasks[rows[i].id] && rows[i].task.owner == owner
    ensures forall k :: k in tasks && tasks[k].owner == owner ==> Row(k, tasks[k]) in rows
    ensures forall i, j :: 0 <= i < j < |rows| ==> rows[i].id != rows[j].id
    ensures forall i, j :: 0 <= i < j < |rows| ==> rows[i].task.createdAt >= rows[j].task.createdAt
  {
    NewestFirst(OwnedBy(tasks, owner), tasks)
  }

  /** `request.args.get('city', current_user.preferred_city)`: the query
      argument when present (even if empty), else the stored preference. */
  function ResolveCity(cityArg: Option<string>, user: User): (city: string)
    ensures cityArg.Some? ==> city == cityArg.value
    ensures cityArg.None? ==> city == user.preferredCity
  {
    match cityArg
    case Some(c) => c
    case None => user.preferredCity
  }

  /** What the dashboard page shows the given user. */
  function BuildView(s: Store, uid: UserId, cityArg: Option<string>): (v: View)
    requires uid in s.users
    ensures v.city == ResolveCity(cityArg, s.users[uid])
    ensures v.cities == NepalCities
    ensures v.tasks == TaskList(s.tasks, uid)
  {
    View(TaskList(s.tasks, uid), ResolveCity(cityArg, s.users[uid]), NepalCities)
  }
}
