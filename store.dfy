/**
 * The task store `this.tasks` as a value: lookup by id and the effect of every
 * mutation on the whole sequence. The class in App performs these in place and is
 * proved to produce exactly these values.
 */
module Store {
  import opened Wrappers
  import opened Tasks
  import Seqs

  /** `tasks.find(t => t.id === id)`, as the index of the first match. */
  function IndexOf(tasks: seq<Task>, id: string): (r: Option<nat>)
    ensures r.Some? ==> r.value < |tasks| && tasks[r.value].id == id
    ensures r.Some? ==> forall j :: 0 <= j < r.value ==> tasks[j].id != id
    ensures r.None? <==> forall t :: t in tasks ==> t.id != id
  {
    if tasks == [] then None
    else if tasks[0].id == id then Some(0)
    else
      match IndexOf(tasks[1..], id)
      case None =>
        assert forall t :: t in tasks ==> t == tasks[0] || t in tasks[1..];
        None
      case Some(i) => Some(i + 1)
  }

  /** No two tasks share an id. */
  predicate UniqueIds(tasks: seq<Task>) {
    forall i, j :: 0 <= i < j < |tasks| ==> tasks[i].id != tasks[j].id
  }

  /** With unique ids, the task found for an id is the only one carrying it. */
  lemma IndexOfUnique(tasks: seq<Task>, id: string, k: nat)
    requires UniqueIds(tasks)
    requires k < |tasks| && tasks[k].id == id
    ensures IndexOf(tasks, id) == Some(k)
  {
  }

  /** `updateTaskStatus`: the first task with that id gets status `s`; an unknown id changes nothing. */
  function SetStatus(tasks: seq<Task>, id: string, s: Status, now: int): (r: seq<Task>)
    ensures |r| == |tasks|
    ensures IndexOf(tasks, id).None? ==> r == tasks
    ensures IndexOf(tasks, id).Some? ==>
      var i := IndexOf(tasks, id).value;
      r == tasks[i := WithStatus(tasks[i], s, now)]
      && r[i].status == s && (r[i].completed <==> s == Completed)
      && r[i].completedAt == (if r[i].completed then Some(now) else None)
    ensures forall i :: 0 <= i < |r| ==> r[i].id == tasks[i].id
  {
    match IndexOf(tasks, id)
    case None => tasks
    case Some(i) => tasks[i := WithStatus(tasks[i], s, now)]
  }

  /** `toggleTaskComplete`: the first task with that id is toggled; an unknown id changes nothing. */
  function ToggleComplete(tasks: seq<Task>, id: string, now: int): (r: seq<Task>)
    ensures |r| == |tasks|
    ensures IndexOf(tasks, id).None? ==> r == tasks
    ensures IndexOf(tasks, id).Some? ==>
      var i := IndexOf(tasks, id).value;
      r == tasks[i := Toggled(tasks[i], now)]
      && r[i].completed == !tasks[i].completed && r[i].status == tasks[i].status
      && (r[i].completedAt.Some? <==> r[i].completed)
    ensures forall i :: 0 <= i < |r| ==> r[i].id == tasks[i].id
  {
    match IndexOf(tasks, id)
    case None => tasks
    case Some(i) => tasks[i := Toggled(tasks[i], now)]
  }

  /** The edit branch of `handleTaskSubmit`: `None` when no task has that id (script.js:341-342). */
  function Edit(tasks: seq<Task>, id: string, d: TaskData, now: int): (r: Option<seq<Task>>)
    ensures r.None? <==> IndexOf(tasks, id).None?
    ensures r.Some? ==>
      var i := IndexOf(tasks, id).value;
      |r.value| == |tasks| && r.value == tasks[i := Edited(tasks[i], d, now)]
      && Data(r.value[i]) == d
    ensures r.Some? ==> forall i :: 0 <= i < |tasks| ==> r.value[i].id == tasks[i].id
  {
    match IndexOf(tasks, id)
    case None => None
    case Some(i) => Some(tasks[i := Edited(tasks[i], d, now)])
  }

  /** The create branch of `handleTaskSubmit`: one new task at the end (script.js:346-355). */
  function Create(tasks: seq<Task>, id: string, d: TaskData, now: int): (r: seq<Task>)
    ensures |r| == |tasks| + 1 && r[..|tasks|] == tasks
    ensures r[|tasks|].id == id && !r[|tasks|].completed
    ensures r[|tasks|].status == Pending && r[|tasks|].completedAt.None?
    ensures r[|tasks|] == NewTask(id, d, now)
    ensures Data(r[|tasks|]) == d && r[|tasks|].createdAt == now == r[|tasks|].updatedAt
  {
    tasks + [NewTask(id, d, now)]
  }

  predicate HasOtherId(id: string, t: Task) {
    t.id != id
  }

  /** `deleteTask`: `tasks.filter(t => t.id !== id)` (script.js:373). */
  function Delete(tasks: seq<Task>, id: string): (r: seq<Task>)
    ensures forall t :: t in r <==> t in tasks && t.id != id
    ensures |r| <= |tasks|
  {
    Seqs.Filter(tasks, t => HasOtherId(id, t))
  }

  /** Deleting an id that no task carries leaves the store as it was. */
  lemma DeleteAbsent(tasks: seq<Task>, id: string)
    requires IndexOf(tasks, id).None?
    ensures Delete(tasks, id) == tasks
  {
    Seqs.FilterKeepsAll(tasks, t => HasOtherId(id, t));
  }

  /** Deleting an id that is present removes at least one task. */
  lemma DeletePresent(tasks: seq<Task>, id: string)
    requires IndexOf(tasks, id).Some?
    ensures |Delete(tasks, id)| < |tasks|
  {
    var r := Delete(tasks, id);
    var k := IndexOf(tasks, id).value;
    assert tasks[k] in tasks;
    assert multiset(r)[tasks[k]] == 0;
    assert multiset(tasks)[tasks[k]] > 0;
  }

  /** Deletion keeps the survivors in their order: it distributes over concatenation. */
  lemma DeleteConcat(a: seq<Task>, b: seq<Task>, id: string)
    ensures Delete(a + b, id) == Delete(a, id) + Delete(b, id)
  {
    Seqs.FilterConcat(a, b, t => HasOtherId(id, t));
  }

  /** Deleting twice is deleting once. */
  lemma DeleteIdempotent(tasks: seq<Task>, id: string)
    ensures Delete(Delete(tasks, id), id) == Delete(tasks, id)
  {
    DeleteAbsent(Delete(tasks, id), id);
  }

  lemma UniqueIdsCons(t: Task, rest: seq<Task>)
    requires UniqueIds(rest)
    requires forall u :: u in rest ==> u.id != t.id
    ensures UniqueIds([t] + rest)
  {
    var s := [t] + rest;
    forall i, j | 0 <= i < j < |s| ensures s[i].id != s[j].id {
      if i == 0 {
        assert s[j] == rest[j - 1] && rest[j - 1] in rest;
      } else {
        assert s[i] == rest[i - 1] && s[j] == rest[j - 1];
      }
    }
  }

  /** Deleting keeps ids unique. */
  lemma {:induction false} DeleteKeepsIdsUnique(tasks: seq<Task>, id: string)
    requires UniqueIds(tasks)
    ensures UniqueIds(Delete(tasks, id))
  {
    if tasks != [] {
      var t, rest := tasks[0], tasks[1..];
      assert UniqueIds(rest) by {
        forall i, j | 0 <= i < j < |rest| ensures rest[i].id != rest[j].id {
          assert rest[i] == tasks[i + 1] && rest[j] == tasks[j + 1];
        }
      }
      DeleteKeepsIdsUnique(rest, id);
      var kept := Delete(rest, id);
      assert forall u :: u in kept ==> u.id != t.id by {
        forall u | u in kept ensures u.id != t.id {
          var j :| 0 <= j < |rest| && rest[j] == u;
          assert tasks[j + 1] == u;
        }
      }
      if HasOtherId(id, t) {
        assert Delete(tasks, id) == [t] + kept;
        UniqueIdsCons(t, kept);
      } else {
        assert Delete(tasks, id) == kept;
      }
    }
  }

  /** Editing keeps ids unique: an edit never changes an id. */
  lemma EditKeepsIdsUnique(tasks: seq<Task>, id: string, d: TaskData, now: int)
    requires UniqueIds(tasks)
    requires IndexOf(tasks, id).Some?
    ensures UniqueIds(Edit(tasks, id, d, now).value)
  {
    var r := Edit(tasks, id, d, now).value;
    assert forall i :: 0 <= i < |tasks| ==> r[i].id == tasks[i].id;
  }

  /** Creating with an id no task carries keeps ids unique. */
  lemma CreateKeepsIdsUnique(tasks: seq<Task>, id: string, d: TaskData, now: int)
    requires UniqueIds(tasks)
    requires IndexOf(tasks, id).None?
    ensures UniqueIds(Create(tasks, id, d, now))
  {
    var r := Create(tasks, id, d, now);
    forall i, j | 0 <= i < j < |r| ensures r[i].id != r[j].id {
      if j == |tasks| {
        assert r[i] == tasks[i] && tasks[i] in tasks;
      }
    }
  }
}
