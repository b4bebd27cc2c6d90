# TaskFlow task store, views and focus timer in Dafny

This project models the data core of the TaskFlow task tracker (`script.js`, class
`TaskFlowApp`): the task records and the handlers that create, edit, toggle, move and
delete them; the list view's search, status filter and comparator sort; the counts
behind the kanban board, the header statistics, the category panel and the progress
ring; the 42-day calendar grid; and the 25-minute Pomodoro countdown.

The layout follows the program:

- `wrappers.dfy`, `seqs.dfy`: `Option`, and `Array.prototype.filter`/`map` on sequences.
- `text.dfy`: the string operations the form and the search use — `trim` (with the
  ECMAScript white-space set), `split(',')`, `join`, `toLowerCase`, `includes` — and the
  round trip of a tag list through the edit form (`join(', ')` then split, trim, drop empties).
- `tasks.dfy`: the `Task` record, the form as read by `handleTaskSubmit`, and the
  per-task updates (new, edited, toggled, moved to a column).
- `store.dfy`: `this.tasks` as a value — lookup by id and each mutation's effect on
  the whole sequence, with id uniqueness preserved.
- `query.dfy`: `getFilteredTasks` — search, filter, and the comparator sort as a stable
  insertion sort, proved to return a sorted permutation of the selected tasks.
- `views.dfy`: kanban columns, header statistics, category statistics, progress ring,
  priority colours.
- `calendar.dfy`: the calendar grid, days as whole days since the epoch.
- `focus.dfy`: the Pomodoro timer as a state machine over play/pause, reset and ticks.
- `app.dfy`: class `TaskFlowApp`, whose methods change its fields in place and are
  proved to leave them equal to the functions above applied to the old state.

Inputs the program takes from its environment are parameters: the current time
`now` (milliseconds), the id `generateId()` would return (`freshId`), the answer to
the delete confirmation (`confirmed`), the first day of the month the calendar
shows (`firstOfMonth`, a day number), and the stored values read at start-up.

Where the code and its documentation disagree the model follows the code:

- A task that is in progress and then ticked is shown in both the "in progress" and
  the "completed" kanban columns (`Views.ColumnCounts`, `Tasks.ToggleInProgressDrifts`).
- Ticking the checkbox does not change `updatedAt` or `status`; moving a card does.
- Submitting the edit form for a task that no longer exists throws in
  `Object.assign` before anything is changed or saved (`App.SubmitOutcome.TaskNotFound`).

## Model

| member | source | states |
|---|---|---|
| Seqs.Filter | script.js:373 | `filter` keeps exactly the elements that pass, and never returns more than its input |
| Seqs.FilterCounts | script.js:134-156 | each element occurs in the filtered sequence as often as in the input when it passes, and not at all otherwise |
| Seqs.FilterCons | script.js:373 | a sequence with a known head filters to the head, if it passes, followed by the filtered tail |
| Seqs.FilterConcat | script.js:373 | filtering distributes over concatenation, so the kept elements keep their order |
| Seqs.FilterExt | script.js:142-156 | filters that agree on every element return the same sequence |
| Seqs.FilterFilter | script.js:132-156 | filtering twice is filtering once by the conjunction of both tests |
| Seqs.FilterSkip | script.js:159-174 | an element that fails the test leaves no trace wherever it sits |
| Seqs.FilterFront | script.js:159-174 | an element that passes, with nothing passing before it, comes first among the kept ones |
| Text.Trim | script.js:322-323 | the result has no leading or trailing white space, is empty exactly when the input is all white space, and is never longer than the input |
| Text.TrimEmptyIffBlank | script.js:322-323 | stripping leading then trailing white space leaves a string without outer white space, empty exactly when the input was all white space |
| Text.TrimIsSlice | script.js:322-323 | the trimmed string is the slice of the input left between an all-white-space prefix and an all-white-space suffix |
| Text.TrimBlankPrefix | script.js:322-323 | white space in front of a trimmed string is exactly what `trim` removes |
| Text.TrimKeepsCommaFree | script.js:329-330 | trimming a piece without commas leaves none |
| Text.TrimOfTrimmed | script.js:322-323 | trimming a string without outer white space returns it unchanged |
| Text.SplitCommas | script.js:328-329 | `split(',')` yields at least one piece and no piece contains a comma |
| Text.Join | script.js:314 | `join(sep)`: the pieces with `sep` between neighbours (definition; its properties are in SplitJoinRoundTrip, JoinCons and TagsRoundTrip) |
| Text.JoinCons | script.js:314 | joining a piece in front of at least one more adds the piece and a separator |
| Text.SplitJoinRoundTrip | script.js:328-329 | joining the pieces of `split(',')` with commas gives back the input |
| Text.SplitAtFirstComma | script.js:328-329 | a comma-free prefix before the first comma comes out of `split(',')` as the first piece, followed by the pieces of the rest |
| Text.SplitWithoutComma | script.js:328-329 | a string without commas splits into itself alone |
| Text.ParseTags | script.js:328-331 | every parsed tag is non-empty, trimmed and free of commas |
| Text.CleanPieces | script.js:329-331 | every kept piece is trimmed and non-empty, there are no more of them than pieces, and comma-free pieces give comma-free tags |
| Text.CleanPiecesConcat | script.js:329-331 | cleaning works piece by piece, keeping order |
| Text.CleanSingle | script.js:329-331 | one piece cleans up to its trimmed form, or to nothing when that is empty |
| Text.TagsRoundTrip | script.js:314 | a tag list shown in the edit form as `join(', ')` and parsed back on submit is the same list |
| Text.Lower | script.js:68 | `toLowerCase` keeps the length, turns each upper-case ASCII letter into its lower-case letter and keeps every other character |
| Text.Contains | script.js:135-137 | `includes`: the query is a prefix of the string or of one of its suffixes (definition; characterised by ContainsIffOccurs) |
| Text.OccursContains | script.js:135-137 | an occurrence of the query at any index makes `includes` hold |
| Text.ContainsOccurs | script.js:135-137 | when `includes` holds, the returned index is an occurrence of the query |
| Text.ContainsIffOccurs | script.js:135-137 | `includes` holds exactly when the query occurs at some index |
| Text.OccursIgnoringCase | script.js:135-137 | an occurrence survives lower-casing both strings, so the search is case-insensitive for ASCII |
| Tasks.ReadForm | script.js:321-332 | the title and description are the trims of the typed ones, the tags are `ParseTags` of the tags field, category, priority and date are copied, an empty time becomes absent; so the title is empty exactly when the typed one is blank, and every tag is non-empty, trimmed and comma-free |
| Tasks.FormOf | script.js:307-315 | `populateForm`: the task's fields as the form shows them, tags joined with `, ` (definition; its round trip is ReadFormOfTask) |
| Tasks.ReadFormOfTask | script.js:307-332 | opening the edit form on a well-formed task and submitting it unchanged reads back the task's own fields |
| Tasks.NewTask | script.js:346-354 | a new task carries the submitted fields, is not completed, is pending, has no completion time, and has the given id and the current time as creation and update time |
| Tasks.Edited | script.js:341-342 | an edit writes the submitted fields, keeps id, completion flag, status, creation and completion times, and stamps the update time |
| Tasks.Toggled | script.js:267-268 | the flag flips, a completion time is present exactly when completed and is the current time, and nothing else changes |
| Tasks.WithStatus | script.js:494-502 | the status is set, completed holds exactly for the completed column, the completion time is the current time when completed and absent otherwise, the update time is stamped, nothing else changes |
| Tasks.WithStatusConsistent | script.js:494-502 | after a move the completion flag and the status agree |
| Tasks.ToggleInProgressDrifts | script.js:264-268 | ticking an in-progress task leaves it completed but still in progress |
| Store.IndexOf | script.js:265 | `find` by id: the first task with that id, or none exactly when no task has it |
| Store.IndexOfUnique | script.js:265 | with unique ids the task found is the one carrying the id |
| Store.ToggleComplete | script.js:264-279 | only the first task with the id is toggled; an unknown id changes nothing; length and ids are kept |
| Store.SetStatus | script.js:491-509 | only the first task with the id is moved, with the current time as completion time when it lands in the completed column; an unknown id changes nothing; length and ids are kept |
| Store.Edit | script.js:339-343 | the edit fails exactly when the id is unknown; otherwise only that task changes, and its form fields become the submitted ones; ids are kept |
| Store.Create | script.js:345-356 | the old tasks are kept in order and `NewTask` of the submitted fields is appended: pending, with the given id, the submitted fields and the current time |
| Store.Delete | script.js:373 | the survivors are exactly the tasks whose id differs |
| Store.DeleteAbsent | script.js:373 | deleting an unknown id leaves the store unchanged |
| Store.DeletePresent | script.js:373 | deleting a known id shrinks the store |
| Store.DeleteConcat | script.js:373 | deletion keeps the survivors in their order |
| Store.DeleteIdempotent | script.js:373 | deleting twice is deleting once |
| Store.DeleteKeepsIdsUnique | script.js:373 | deletion preserves unique ids |
| Store.EditKeepsIdsUnique | script.js:339-343 | editing preserves unique ids |
| Store.CreateKeepsIdsUnique | script.js:346-355 | creating with a fresh id preserves unique ids |
| Query.MatchesSearch | script.js:134-138 | the search matches the lower-cased title, description or any tag containing the query (definition) |
| Query.PassesFilter | script.js:142-156 | the status filter: all, not completed, completed, or dated, not completed and due before now (definition) |
| Query.Select | script.js:132-156 | each task is kept, as often as stored, exactly when it matches the search (or the search is empty) and passes the status filter |
| Query.SelectInStoreOrder | script.js:132-156 | the search and the status filter together are one filter by `Selected`, so the selection keeps the store's order |
| Query.Rank | script.js:162 | the priorities table: low 1, medium 2, high 3, urgent 4 (definition; PriorityOrder states its use) |
| Query.CompareTitles | script.js:170 | stand-in for `localeCompare`: character-code order, negative, zero or positive (definition; characterised by CompareTitlesZero, CompareTitlesAntisymmetric and CompareTitlesTransitive) |
| Query.Compare | script.js:159-174 | the comparator, negative when `a` goes first (definition; its meaning is CompareMeaning) |
| Query.CompareMeaning | script.js:159-174 | higher priority first; earlier due date first and undated tasks last; titles tie only when equal; newer first |
| Query.CompareTitlesZero | script.js:170-171 | two titles compare equal exactly when they are the same string |
| Query.CompareAntisymmetric | script.js:159-174 | the comparator is antisymmetric for every sort key |
| Query.CompareTransitive | script.js:159-174 | the comparator is transitive for every sort key |
| Query.CompareTitlesAntisymmetric | script.js:170-171 | swapping two titles negates their comparison |
| Query.CompareTitlesTransitive | script.js:170-171 | the title order is transitive |
| Query.InsertPermutes | script.js:159-174 | inserting an element adds exactly that element |
| Query.InsertSorted | script.js:159-174 | inserting into a sequence in comparator order keeps it in order |
| Query.Sort | script.js:159-174 | the sort returns a permutation of its input in comparator order |
| Query.InsertSplit | script.js:159-174 | insertion places the element right after the elements it does not precede |
| Query.TiesAreTied | script.js:159-174 | two elements that tie with a third never have the first strictly after the second |
| Query.TiesNotBefore | script.js:159-174 | nothing the inserted element does not precede ties with what it ties with |
| Query.InsertFilter | script.js:159-174 | among the elements tied with any given task, the inserted one comes first and the rest keep their order |
| Query.SortStable | script.js:159 | the sort is stable: for every task, the elements tied with it appear in the same order as in the input |
| Query.SortOfSorted | script.js:159-174 | sorting an already ordered sequence leaves it unchanged |
| Query.FilteredTasks | script.js:129-177 | the list holds each selected task as often as stored, and only those, in comparator order, and tasks that tie appear in store order |
| Query.PriorityOrder | script.js:160-162 | under the priority sort higher priorities come first |
| Query.DueDateOrder | script.js:163-167 | under the due-date sort earlier dates come first and undated tasks last |
| Query.CreatedOrder | script.js:172-173 | under the default sort newer tasks come first |
| Query.OverdueNeverCompleted | script.js:149-155 | an overdue task has a due date before now and is not completed |
| Views.InPendingColumn | script.js:424 | the pending column: not completed and not in progress (definition) |
| Views.InProgressColumn | script.js:425 | the in-progress column: status in progress (definition) |
| Views.InCompletedColumn | script.js:426 | the completed column: completed (definition) |
| Views.ColumnsCoverAndPendingIsApart | script.js:424-426 | every task is in some column, the pending column is disjoint from the others, and a task is in two columns exactly when in progress and completed |
| Views.ConsistentInOneColumn | script.js:424-426 | a task whose flag and status agree is in one column only |
| Views.ColumnCounts | script.js:119-121 | the three column counts sum to the number of tasks plus those shown twice |
| Views.ConsistentColumnsPartition | script.js:119-121 | when every task's flag and status agree, the column counts sum to the number of tasks |
| Views.StatsOf | script.js:106-109 | the total is the store size, completed never exceeds it, and completed plus pending is the total |
| Views.PendingStatCountsOpenTasks | script.js:107-109 | the pending figure equals the number of tasks not completed |
| Views.Percent | script.js:573 | the percentage is 0 for no tasks and otherwise `100 c / t` rounded half up, at most 100 when `c <= t` |
| Views.PercentEnds | script.js:573 | none completed shows 0%, all of a non-empty set shows 100% |
| Views.PercentMonotone | script.js:573 | more completed tasks never show a smaller percentage |
| Views.CategoryStatOf | script.js:569-576 | the total is the number of tasks in the category, completed the number of completed ones among them, and the percentage is `Percent(completed, total)`, at most 100 and 0 for an empty category |
| Views.CategoryStats | script.js:568-577 | one line per category, in registry order, the i-th being that category's figures |
| Views.EmptyCategoryShowsZero | script.js:569-576 | a category no task uses shows 0 of 0 at 0% |
| Views.Progress | script.js:630-632 | the ring shows the header's completed count as a rounded share of the store, at most 100% and 0% for an empty store |
| Views.ProgressEnds | script.js:630-632 | a non-empty all-completed store shows 100%, a store with nothing completed 0% |
| Views.PriorityColor | script.js:775-783 | every priority has a `#RRGGBB` colour |
| Views.PriorityColorsDistinct | script.js:775-783 | distinct priorities have distinct colours |
| Calendar.IsSameDay | script.js:769-773 | two instants share a date (definition; characterised by SameDayMeansSameMidnight) |
| Calendar.SameDayMeansSameMidnight | script.js:769-773 | two instants are on the same day exactly when their days start at the same midnight, and then less than a day apart |
| Calendar.Weekday | script.js:522-523 | `getDay` is a weekday number from 0 to 6 |
| Calendar.WeekdaySteps | script.js:522-523 | 4 January 1970 is a Sunday (0), each day advances the weekday by one modulo 7, and a week later is the same weekday |
| Calendar.GridStart | script.js:520-523 | the grid starts on a Sunday (a whole number of weeks from 4 January 1970) at most six days before the first of the month |
| Calendar.GridDays | script.js:525-530 | 42 consecutive days from that Sunday, covering the first 31 days of the month |
| Calendar.TasksForDay | script.js:535-537 | a day lists exactly the tasks with a due date on that day |
| Calendar.TasksForDayIsFilter | script.js:535-537 | a day's list is the store filtered by its due date: store order and multiplicity are kept |
| Calendar.CellOf | script.js:543-548 | at most three tasks are shown, in order, and the "+n more" count makes up the rest |
| Calendar.CalendarGrid | script.js:525-548 | 42 cells, the i-th being the cell of the i-th grid day |
| Calendar.TaskInItsOwnDay | script.js:535-537 | a dated task appears in its own day's cell and in no other |
| Focus.TickTimer | script.js:660-667 | one tick of the interval: nothing while paused, otherwise a second off, and the session completes and resets on reaching zero (definition; its properties are CountDown, LastTickResets and SessionCompletes) |
| Focus.Step | script.js:642-685 | one event: the play/pause button, reset, or a tick (definition; StepStaysInRange and RunStaysInRange hold of it) |
| Focus.ResetIsInitial | script.js:681-685 | reset always gives the full paused session |
| Focus.LastTickResets | script.js:660-666 | the tick that reaches zero completes the session, which resets the timer |
| Focus.StepStaysInRange | script.js:642-685 | no event takes the remaining time outside 1..1500 seconds |
| Focus.RunStaysInRange | script.js:642-685 | no sequence of events takes the remaining time outside 1..1500 seconds |
| Focus.RunConcat | script.js:642-685 | running two event sequences one after the other is running their concatenation |
| Focus.PausedIgnoresTicks | script.js:670-672 | a paused timer is unaffected by the clock |
| Focus.CountDown | script.js:660-662 | a running timer loses one second per tick before it reaches zero |
| Focus.SessionCompletes | script.js:660-666 | a running timer with `t` seconds left is back at the full paused session after exactly `t` ticks |
| App.TaskFlowApp.constructor | script.js:2-16 | stored tasks and categories or an empty store and the three default categories; a full paused timer, no filter, the default sort, empty search |
| App.TaskFlowApp.SaveTasks | script.js:100-104 | the stored snapshot becomes the current store |
| App.TaskFlowApp.SetSearchQuery | script.js:67-70 | the kept query is the lower-cased input |
| App.TaskFlowApp.SetFilter | script.js:72-75 | the status filter becomes the selected one |
| App.TaskFlowApp.SetSort | script.js:77-80 | the sort key becomes the selected one |
| App.TaskFlowApp.GetFilteredTasks | script.js:129-177 | without changing the store, returns the selected tasks as a sorted permutation with ties in store order, with the filter and sort guarantees spelled out |
| App.TaskFlowApp.ToggleTaskComplete | script.js:264-279 | the store becomes `Store.ToggleComplete` of the old one; it is saved exactly when the id was found; unique ids are kept |
| App.TaskFlowApp.UpdateTaskStatus | script.js:491-509 | the store becomes `Store.SetStatus` of the old one; it is saved exactly when the id was found; unique ids are kept |
| App.TaskFlowApp.DeleteTask | script.js:371-381 | when confirmed the store becomes `Store.Delete` of the old one and is saved, otherwise nothing changes; no task with the id is left; unique ids are kept |
| App.TaskFlowApp.OpenTaskModal | script.js:281-282 | the form remembers the task it edits, or none |
| App.TaskFlowApp.CloseTaskModal | script.js:300-305 | the form forgets the task it edited |
| App.TaskFlowApp.ApplyEdit | script.js:339-343 | the edit succeeds exactly when the id is known, and then the store becomes `Store.Edit` of the old one; otherwise nothing changes; unique ids are kept |
| App.TaskFlowApp.AddTask | script.js:345-356 | the store becomes `Store.Create` of the old one; unique ids are kept when the id is new |
| App.TaskFlowApp.SubmitData | script.js:334-364 | an empty title is refused with nothing changed; otherwise an edit of a known task or a creation with the fresh id, then save and close; an edit of an unknown id changes nothing; unique ids are kept when the fresh id is new |
| App.TaskFlowApp.HandleTaskSubmit | script.js:317-365 | a blank title is refused with nothing changed; otherwise an edit of a known task or a creation with the fresh id, then save and close; an edit of an unknown id changes nothing; unique ids are kept when the fresh id is new |
| App.TaskFlowApp.TogglePomodoro | script.js:642-648 | the play/pause button flips running and is one `Toggle` step of the timer |
| App.TaskFlowApp.StartPomodoro | script.js:650-651 | the timer starts running with its time unchanged |
| App.TaskFlowApp.PausePomodoro | script.js:670-671 | the timer stops with its time unchanged |
| App.TaskFlowApp.ResetPomodoro | script.js:681-685 | the timer is back at the full paused session |
| App.TaskFlowApp.Tick | script.js:660-667 | one `Tick` step: a second off, and the session completes and resets exactly when one second was left |
| App.TaskFlowApp.CompletePomodoroSession | script.js:703-704 | the timer is back at the full paused session |

## Left out

- Rendering: every `render*` and `create*HTML` method, the DOM, event binding, keyboard shortcuts, drag and drop other than its effect (`updateTaskStatus`), toasts, the theme toggle and the background particles: they produce markup, not state.
- The weekly bar chart (`renderWeeklyChart`) and the stroke offsets of the progress ring and the Pomodoro ring: canvas drawing and floating-point geometry.
- Storage and JSON: `localStorage` is reduced to a snapshot field (`saved`) and the constructor's optional stored values; serialisation is not modelled, and categories are never written back because no handler changes them.
- `generateId`, the clock, `confirm` and the timer interval: they are parameters (`freshId`, `now`, `confirmed`) or an explicit `Tick` call; the collision-freedom of `generateId` is not modelled, only assumed in the `UniqueIds` guarantee of `HandleTaskSubmit`.
- The browser `Notification` in `completePomodoroSession` and the service-worker registration: outside the program's state.
- Dates are integer milliseconds in one time zone: parsing `YYYY-MM-DD` strings (which JavaScript reads as UTC midnight) versus the local-time getters of `isSameDay` and `getDay`, and daylight-saving shifts, are not modelled; `Calendar.Weekday` counts from 1 January 1970, a Thursday.
- Calendar.GridStart, Calendar.GridDays, Calendar.CalendarGrid: the first of the shown month is a parameter `firstOfMonth`; the month arithmetic of script.js:513-520 (`getFullYear`, `getMonth`, `new Date(year, month, 1)`) is not modelled, because it reads the clock and the calendar of the host.
- `navigateMonth` re-renders the current month and keeps no state; `formatDate` and the month caption are locale formatting.
- Query.CompareTitles: `localeCompare` is modelled as plain character-code order, not the locale collation.
- Text.Lower: `toLowerCase` is modelled on the ASCII letters only, without Unicode case mapping.
- Views.Percent: `Math.round` of a floating-point quotient is modelled as exact round-half-up; the rare inputs where the binary quotient rounds across a half are not captured.
- Values outside the select lists (an unknown priority, filter or sort string) cannot occur in the model: priorities, filters and sort keys are enumerations, so the `|| colors.medium` fallback of `getPriorityColor` and the `default` branches are only reached for `ByCreated`/`AllTasks`.
- The `dueTime` field is carried through the form but used by no view.
- Tasks are values: the sharing between the array and the object that `find` returns is captured only by the result being written back at the found index.
- Category creation or editing: the source has no such handler.
- The start-up code after the class (script.js:798-854) that seeds three sample tasks into an empty store and saves them, and the global keyboard shortcuts after it (script.js:857): demonstration data and key bindings outside `TaskFlowApp`, not part of its logic.
