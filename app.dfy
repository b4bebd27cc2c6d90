/**
 * `TaskFlowApp` (script.js:1-788): the state the application keeps in its fields
 * and the handlers that change it in place. Rendering, toasts and event binding
 * are not part of this model; the clock, `confirm` and `generateId` are parameters.
 */
module App {
  import opened Wrappers
  import opened Tasks
  import Text
  import Store
  import Query
  import Focus
  import Seqs

  /** What submitting the task form does. */
  datatype SubmitOutcome =
    | TitleRequired      // the "Task title is required" toast; nothing changes
    | TaskNotFound       // editing an id that is gone: `Object.assign` throws before changing anything
    | Created(id: string)
    | Updated(id: string)

  /** `if (this.currentTask)`: the form edits a task only when the remembered id is a non-empty string. */
  predicate EditsTask(currentTask: Option<string>) {
    currentTask.Some? && currentTask.value != []
  }

  class TaskFlowApp {
    /** `this.tasks`, in insertion order. */
    var tasks: seq<Task>
    /** The value last written under the `taskflow-tasks` storage key, if any. */
    var saved: Option<seq<Task>>
    var categories: seq<Category>
    /** The id of the task the form is editing; `None` when it creates one. */
    var currentTask: Option<string>
    var searchQuery: string
    var currentFilter: Query.StatusFilter
    var currentSort: Query.SortKey
    var pomodoroTime: int
    var pomodoroRunning: bool

    /** The timer fields as a state of the Pomodoro machine. */
    function Timer(): Focus.Timer
      reads this
    {
      Focus.Timer(pomodoroTime, pomodoroRunning)
    }

    /** The constructor (script.js:2-16): stored values, or an empty store and the default categories. */
    constructor (storedTasks: Option<seq<Task>>, storedCategories: Option<seq<Category>>)
      ensures tasks == (if storedTasks.Some? then storedTasks.value else [])
      ensures saved == storedTasks
      ensures categories == (if storedCategories.Some? then storedCategories.value else DefaultCategories)
      ensures currentTask.None? && searchQuery == []
      ensures currentFilter == Query.AllTasks && currentSort == Query.ByCreated
      ensures Timer() == Focus.Initial && Focus.InRange(Timer())
    {
      tasks := if storedTasks.Some? then storedTasks.value else [];
      saved := storedTasks;
      categories := if storedCategories.Some? then storedCategories.value else DefaultCategories;
      currentTask := None;
      pomodoroTime := Focus.SessionSeconds;
      pomodoroRunning := false;
      currentFilter := Query.AllTasks;
      currentSort := Query.ByCreated;
      searchQuery := [];
    }

    /** `saveTasks`: the store is written to storage. */
    method SaveTasks()
      modifies this`saved
      ensures saved == Some(tasks)
    {
      saved := Some(tasks);
    }

    /** The search box handler: the query is kept lower-cased (script.js:67-70). */
    method SetSearchQuery(input: string)
      modifies this`searchQuery
      ensures searchQuery == Text.Lower(input)
    {
      searchQuery := Text.Lower(input);
    }

    /** The filter select handler (script.js:72-75). */
    method SetFilter(f: Query.StatusFilter)
      modifies this`currentFilter
      ensures currentFilter == f
    {
      currentFilter := f;
    }

    /** The sort select handler (script.js:77-80). */
    method SetSort(key: Query.SortKey)
      modifies this`currentSort
      ensures currentSort == key
    {
      currentSort := key;
    }

    /**
     * `getFilteredTasks` (script.js:129-177): works on a copy, so the store is not
     * changed. The result holds the tasks that pass the search and the filter, each
     * as often as in the store, in comparator order, ties in store order.
     */
    method GetFilteredTasks(now: int) returns (r: seq<Task>)
      ensures forall t :: multiset(r)[t] ==
                          if Query.Selected(searchQuery, currentFilter, now, t) then multiset(tasks)[t] else 0
      ensures forall t :: t in r ==> t in tasks
      ensures Query.Sorted(currentSort, r)
      ensures forall z :: Seqs.Filter(r, Query.TiesWith(currentSort, z))
                       == Seqs.Filter(Seqs.Filter(tasks, Query.SelectedBy(searchQuery, currentFilter, now)),
                                      Query.TiesWith(currentSort, z))
      ensures currentFilter == Query.PendingTasks ==> forall t :: t in r ==> !t.completed
      ensures currentFilter == Query.CompletedTasks ==> forall t :: t in r ==> t.completed
      ensures currentFilter == Query.OverdueTasks ==>
        forall t :: t in r ==> !t.completed && t.dueDate.Some? && t.dueDate.value < now
      ensures currentSort == Query.ByPriority ==>
        forall i, j :: 0 <= i < j < |r| ==> Query.Rank(r[i].priority) >= Query.Rank(r[j].priority)
      ensures currentSort == Query.ByDueDate ==>
        forall i, j :: 0 <= i < j < |r| && r[i].dueDate.None? ==> r[j].dueDate.None?
    {
      r := Query.FilteredTasks(tasks, searchQuery, currentFilter, currentSort, now);
    }

    /** `toggleTaskComplete` (script.js:264-279). */
    method ToggleTaskComplete(taskId: string, now: int)
      modifies this`tasks, this`saved
      ensures tasks == Store.ToggleComplete(old(tasks), taskId, now)
      ensures saved == if Store.IndexOf(old(tasks), taskId).Some? then Some(tasks) else old(saved)
      ensures Store.UniqueIds(old(tasks)) ==> Store.UniqueIds(tasks)
    {
      var found := Store.IndexOf(tasks, taskId);
      if found.Some? {
        var i := found.value;
        var task := tasks[i];
        task := task.(completed := !task.completed);
        task := task.(completedAt := if task.completed then Some(now) else None);
        tasks := tasks[i := task];
        SaveTasks();
      }
    }

    /** `updateTaskStatus`, called when a card is dropped on a kanban column (script.js:491-509). */
    method UpdateTaskStatus(taskId: string, newStatus: Status, now: int)
      modifies this`tasks, this`saved
      ensures tasks == Store.SetStatus(old(tasks), taskId, newStatus, now)
      ensures saved == if Store.IndexOf(old(tasks), taskId).Some? then Some(tasks) else old(saved)
      ensures Store.UniqueIds(old(tasks)) ==> Store.UniqueIds(tasks)
    {
      var found := Store.IndexOf(tasks, taskId);
      if found.Some? {
        var i := found.value;
        var task := tasks[i];
        task := task.(status := newStatus);
        if newStatus == Completed {
          task := task.(completed := true, completedAt := Some(now));
        } else {
          task := task.(completed := false, completedAt := None);
        }
        task := task.(updatedAt := now);
        tasks := tasks[i := task];
        SaveTasks();
      }
    }

    /** `deleteTask`; `confirmed` is the user's answer to the confirmation dialog (script.js:371-381). */
    method DeleteTask(taskId: string, confirmed: bool)
      modifies this`tasks, this`saved
      ensures tasks == if confirmed then Store.Delete(old(tasks), taskId) else old(tasks)
      ensures saved == if confirmed then Some(tasks) else old(saved)
      ensures forall t :: t in tasks ==> t.id != taskId || !confirmed
      ensures Store.UniqueIds(old(tasks)) ==> Store.UniqueIds(tasks)
    {
      if confirmed {
        if Store.UniqueIds(tasks) {
          Store.DeleteKeepsIdsUnique(tasks, taskId);
        }
        tasks := Store.Delete(tasks, taskId);
        SaveTasks();
      }
    }

    /** `openTaskModal`: remembers which task the form edits, if any (script.js:281-298). */
    method OpenTaskModal(taskId: Option<string>)
      modifies this`currentTask
      ensures currentTask == taskId
    {
      currentTask := taskId;
    }

    /** `closeTaskModal` (script.js:300-305). */
    method CloseTaskModal()
      modifies this`currentTask
      ensures currentTask.None?
    {
      currentTask := None;
    }

    /**
     * What `handleTaskSubmit` does with the values read from the form: refuse an
     * empty title, else edit or create, save and close the form (script.js:334-364).
     * `freshId` stands for `generateId()`; ids stay unique when it does not collide
     * with a stored one.
     */
    method SubmitData(data: TaskData, now: int, freshId: string) returns (outcome: SubmitOutcome)
      modifies this`tasks, this`saved, this`currentTask
      ensures outcome == TitleRequired <==> data.title == []
      ensures outcome == TitleRequired || outcome == TaskNotFound ==>
        tasks == old(tasks) && saved == old(saved) && currentTask == old(currentTask)
      ensures outcome.Created? ==>
        !EditsTask(old(currentTask)) && outcome.id == freshId
        && tasks == Store.Create(old(tasks), freshId, data, now)
      ensures outcome.Updated? ==>
        EditsTask(old(currentTask)) && old(currentTask) == Some(outcome.id)
        && Store.Edit(old(tasks), outcome.id, data, now) == Some(tasks)
      ensures outcome == TaskNotFound ==>
        EditsTask(old(currentTask)) && Store.IndexOf(old(tasks), old(currentTask).value).None?
      ensures data.title != [] && !EditsTask(old(currentTask)) ==> outcome.Created?
      ensures outcome.Created? || outcome.Updated? ==> saved == Some(tasks) && currentTask.None?
      ensures Store.UniqueIds(old(tasks)) && Store.IndexOf(old(tasks), freshId).None? ==> Store.UniqueIds(tasks)
    {
      if data.title == [] {
        return TitleRequired;
      }
      if EditsTask(currentTask) {
        var id := currentTask.value;
        var found := ApplyEdit(id, data, now);
        if !found {
          return TaskNotFound;
        }
        outcome := Updated(id);
      } else {
        AddTask(freshId, data, now);
        outcome := Created(freshId);
      }
      SaveTasks();
      CloseTaskModal();
    }

    /** `handleTaskSubmit` (script.js:317-365): read the form, then act on what was read. */
    method HandleTaskSubmit(form: TaskForm, now: int, freshId: string) returns (outcome: SubmitOutcome)
      modifies this`tasks, this`saved, this`currentTask
      ensures outcome == TitleRequired <==> Text.IsBlank(form.title)
      ensures outcome == TitleRequired || outcome == TaskNotFound ==>
        tasks == old(tasks) && saved == old(saved) && currentTask == old(currentTask)
      ensures outcome.Created? ==>
        !EditsTask(old(currentTask)) && outcome.id == freshId
        && tasks == Store.Create(old(tasks), freshId, ReadForm(form), now)
      ensures outcome.Updated? ==>
        EditsTask(old(currentTask)) && old(currentTask) == Some(outcome.id)
        && Store.Edit(old(tasks), outcome.id, ReadForm(form), now) == Some(tasks)
      ensures outcome == TaskNotFound ==>
        EditsTask(old(currentTask)) && Store.IndexOf(old(tasks), old(currentTask).value).None?
      ensures !Text.IsBlank(form.title) && !EditsTask(old(currentTask)) ==> outcome.Created?
      ensures outcome.Created? || outcome.Updated? ==> saved == Some(tasks) && currentTask.None?
      ensures Store.UniqueIds(old(tasks)) && Store.IndexOf(old(tasks), freshId).None? ==> Store.UniqueIds(tasks)
    {
      var data := ReadForm(form);
      outcome := SubmitData(data, now, freshId);
    }

    /** The edit branch of `handleTaskSubmit`: the form's fields are assigned to the task with that id (script.js:339-343). */
    method ApplyEdit(id: string, data: TaskData, now: int) returns (found: bool)
      modifies this`tasks
      ensures found <==> Store.IndexOf(old(tasks), id).Some?
      ensures found ==> Store.Edit(old(tasks), id, data, now) == Some(tasks)
      ensures !found ==> tasks == old(tasks)
      ensures Store.UniqueIds(old(tasks)) ==> Store.UniqueIds(tasks)
    {
      var index := Store.IndexOf(tasks, id);
      found := index.Some?;
      if found {
        if Store.UniqueIds(tasks) {
          Store.EditKeepsIdsUnique(tasks, id, data, now);
        }
        var i := index.value;
        tasks := tasks[i := Edited(tasks[i], data, now)];
      }
    }

    /** The create branch of `handleTaskSubmit`: a new pending task is pushed (script.js:345-356). */
    method AddTask(id: string, data: TaskData, now: int)
      modifies this`tasks
      ensures tasks == Store.Create(old(tasks), id, data, now)
      ensures Store.UniqueIds(old(tasks)) && Store.IndexOf(old(tasks), id).None? ==> Store.UniqueIds(tasks)
    {
      if Store.UniqueIds(tasks) && Store.IndexOf(tasks, id).None? {
        Store.CreateKeepsIdsUnique(tasks, id, data, now);
      }
      tasks := tasks + [NewTask(id, data, now)];
    }

    /** `togglePomodoro`: the play/pause button (script.js:642-648). */
    method TogglePomodoro()
      requires Focus.InRange(Timer())
      modifies this`pomodoroRunning
      ensures Timer() == Focus.Step(old(Timer()), Focus.Toggle)
      ensures pomodoroRunning == !old(pomodoroRunning) && Focus.InRange(Timer())
    {
      if pomodoroRunning {
        PausePomodoro();
      } else {
        StartPomodoro();
      }
    }

    /** `startPomodoro`: arms the one-second interval; its only caller checks that none is armed (script.js:650-668). */
    method StartPomodoro()
      requires !pomodoroRunning
      modifies this`pomodoroRunning
      ensures Timer() == Focus.Start(old(Timer()))
    {
      pomodoroRunning := true;
    }

    /** `pausePomodoro`: clears the interval, keeping the remaining time (script.js:670-679). */
    method PausePomodoro()
      modifies this`pomodoroRunning
      ensures Timer() == Focus.Pause(old(Timer()))
    {
      pomodoroRunning := false;
    }

    /** `resetPomodoro` (script.js:681-685). */
    method ResetPomodoro()
      modifies this`pomodoroRunning, this`pomodoroTime
      ensures Timer() == Focus.Step(old(Timer()), Focus.Reset) == Focus.Initial
    {
      PausePomodoro();
      pomodoroTime := Focus.SessionSeconds;
    }

    /**
     * The interval callback (script.js:660-667), which runs only while the interval
     * is armed. `sessionCompleted` reports the call to `completePomodoroSession`,
     * whose toast and notification are not modelled.
     */
    method Tick() returns (sessionCompleted: bool)
      requires pomodoroRunning && Focus.InRange(Timer())
      modifies this`pomodoroRunning, this`pomodoroTime
      ensures Timer() == Focus.Step(old(Timer()), Focus.Tick)
      ensures Focus.InRange(Timer())
      ensures sessionCompleted <==> old(pomodoroTime) == 1
      ensures sessionCompleted ==> Timer() == Focus.Initial
      ensures !sessionCompleted ==> pomodoroTime == old(pomodoroTime) - 1 && pomodoroRunning
    {
      pomodoroTime := pomodoroTime - 1;
      sessionCompleted := pomodoroTime <= 0;
      if sessionCompleted {
        CompletePomodoroSession();
      }
    }

    /** `completePomodoroSession`: resets the timer (script.js:703-714). */
    method CompletePomodoroSession()
      modifies this`pomodoroRunning, this`pomodoroTime
      ensures Timer() == Focus.Initial
    {
      ResetPomodoro();
    }
  }
}
