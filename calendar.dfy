/**
 * The calendar view (script.js:511-553): a 42-day grid starting on the Sunday on or
 * before the first of the month, each day listing the tasks due that day, at most
 * three of them plus a "+n more" count.
 */
module Calendar {
  import opened Wrappers
  import opened Tasks
  import Seqs

  const MsPerDay: int := 86400000
  /** Six weeks of days (script.js:526). */
  const GridLength: int := 42
  /** Tasks listed by name in one day before the overflow count (script.js:543). */
  const ShownPerDay: int := 3

  /** The day number of a timestamp, day 0 being 1 January 1970. */
  function DayOf(ts: int): int {
    ts / MsPerDay
  }

  /** `isSameDay`: same date, month and year (script.js:769-773). */
  predicate IsSameDay(a: int, b: int) {
    DayOf(a) == DayOf(b)
  }

  /** The midnight that starts the day of `ts`. */
  function Midnight(ts: int): int {
    ts - ts % MsPerDay
  }

  /** Two instants are on the same day exactly when their days start at the same midnight, and then they are less than a day apart. */
  lemma SameDayMeansSameMidnight(a: int, b: int)
    ensures IsSameDay(a, b) <==> Midnight(a) == Midnight(b)
    ensures IsSameDay(a, b) ==> -MsPerDay < a - b < MsPerDay
  {
    assert Midnight(a) == DayOf(a) * MsPerDay;
    assert Midnight(b) == DayOf(b) * MsPerDay;
  }

  /** The midnight of day `d` lies on day `d`. */
  lemma DayOfMidnight(d: int)
    ensures DayOf(d * MsPerDay) == d
  {
  }

  /** `getDay()`: 0 for Sunday; 1 January 1970 was a Thursday. */
  function Weekday(day: int): (w: int)
    ensures 0 <= w < 7
  {
    (day + 4) % 7
  }

  /**
   * Weekdays are anchored and advance with the days: 4 January 1970 (day 3) was a
   * Sunday, each next day is the next weekday, and a week later is the same weekday.
   */
  lemma WeekdaySteps(day: int)
    ensures Weekday(3) == 0
    ensures Weekday(day + 1) == (Weekday(day) + 1) % 7
    ensures Weekday(day + 7) == Weekday(day)
  {
  }

  /** The first day of the grid: `firstDay` moved back by its weekday (script.js:522-523). */
  function GridStart(firstOfMonth: int): (start: int)
    ensures Weekday(start) == 0 && (start - 3) % 7 == 0
    ensures start <= firstOfMonth < start + 7
  {
    var w := Weekday(firstOfMonth);
    assert firstOfMonth + 4 == 7 * ((firstOfMonth + 4) / 7) + w;
    firstOfMonth - w
  }

  /** The loop that builds the 42 days of the grid (script.js:525-530). */
  method GridDays(firstOfMonth: int) returns (days: seq<int>)
    ensures |days| == GridLength
    ensures forall i :: 0 <= i < |days| ==> days[i] == GridStart(firstOfMonth) + i
    ensures Weekday(days[0]) == 0
    ensures forall d :: firstOfMonth <= d < firstOfMonth + 31 ==> d in days
  {
    var start := GridStart(firstOfMonth);
    days := [];
    var i := 0;
    while i < GridLength
      invariant 0 <= i <= GridLength
      invariant |days| == i
      invariant forall k :: 0 <= k < i ==> days[k] == start + k
    {
      days := days + [start + i];
      i := i + 1;
    }
    forall d | firstOfMonth <= d < firstOfMonth + 31 ensures d in days {
      assert days[d - start] == d;
    }
  }

  /** `task.dueDate && isSameDay(new Date(task.dueDate), date)` for the grid day `day`. */
  predicate DueOn(day: int, t: Task) {
    t.dueDate.Some? && IsSameDay(t.dueDate.value, day * MsPerDay)
  }

  /** The tasks due on `day`, in store order. */
  function TasksForDay(tasks: seq<Task>, day: int): (r: seq<Task>)
    ensures forall t :: t in r <==> t in tasks && t.dueDate.Some? && DayOf(t.dueDate.value) == day
    decreases |tasks|
  {
    DayOfMidnight(day);
    if tasks == [] then []
    else
      assert forall t :: t in tasks ==> t == tasks[0] || t in tasks[1..];
      (if DueOn(day, tasks[0]) then [tasks[0]] else []) + TasksForDay(tasks[1..], day)
  }

  /** `DueOn` for one day, as the predicate handed to `filter`. */
  function DueOnDay(day: int): Task -> bool {
    t => DueOn(day, t)
  }

  /** The day's list is `this.tasks.filter(...)`: the due tasks in store order, each as often as stored. */
  lemma {:induction false} TasksForDayIsFilter(tasks: seq<Task>, day: int)
    ensures TasksForDay(tasks, day) == Seqs.Filter(tasks, DueOnDay(day))
    decreases |tasks|
  {
    if tasks != [] {
      TasksForDayIsFilter(tasks[1..], day);
    }
  }

  /** One day of the grid: the tasks listed by name and the overflow count. */
  datatype Cell = Cell(day: int, shown: seq<Task>, more: nat)

  /** `tasksForDay.slice(0, 3)` and `+${length - 3} more` when there are more than three (script.js:543-548). */
  function CellOf(tasks: seq<Task>, day: int): (c: Cell)
    ensures c.day == day
    ensures |c.shown| <= ShownPerDay && c.shown <= TasksForDay(tasks, day)
    ensures |c.shown| + c.more == |TasksForDay(tasks, day)|
    ensures c.more > 0 ==> |c.shown| == ShownPerDay
  {
    var due := TasksForDay(tasks, day);
    if |due| > ShownPerDay then Cell(day, due[..ShownPerDay], |due| - ShownPerDay)
    else Cell(day, due, 0)
  }

  /** The whole grid for the month whose first day is `firstOfMonth`. */
  method CalendarGrid(tasks: seq<Task>, firstOfMonth: int) returns (cells: seq<Cell>)
    ensures |cells| == GridLength
    ensures forall i :: 0 <= i < |cells| ==> cells[i] == CellOf(tasks, GridStart(firstOfMonth) + i)
  {
    var days := GridDays(firstOfMonth);
    cells := seq(|days|, i requires 0 <= i < |days| => CellOf(tasks, days[i]));
  }

  /** A task with a due date is counted in the cell of its due day and in no other. */
  lemma TaskInItsOwnDay(tasks: seq<Task>, t: Task, day: int)
    requires t in tasks && t.dueDate.Some?
    ensures t in TasksForDay(tasks, day) <==> day == DayOf(t.dueDate.value)
  {
  }
}
