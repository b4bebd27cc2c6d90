/**
 * Counts the board and the dashboard derive from the store: the kanban columns
 * (script.js:119-121, 424-426), the header statistics (script.js:106-109), the
 * per-category figures (script.js:568-577) and the progress ring (script.js:630-632).
 */
module Views {
  import opened Tasks
  import Seqs

  /** The "pending" column: not completed and not in progress. */
  predicate InPendingColumn(t: Task) {
    !t.completed && t.status != InProgress
  }

  /** The "in progress" column: status in-progress, whatever `completed` says. */
  predicate InProgressColumn(t: Task) {
    t.status == InProgress
  }

  /** The "completed" column: `completed`, whatever `status` says. */
  predicate InCompletedColumn(t: Task) {
    t.completed
  }

  /** Shown in two columns at once: in progress and ticked. */
  predicate InTwoColumns(t: Task) {
    t.status == InProgress && t.completed
  }

  predicate IsOpen(t: Task) {
    !t.completed
  }

  /** Every task lands in some column, and the pending column shares no task with the other two. */
  lemma ColumnsCoverAndPendingIsApart(t: Task)
    ensures InPendingColumn(t) || InProgressColumn(t) || InCompletedColumn(t)
    ensures InPendingColumn(t) ==> !InProgressColumn(t) && !InCompletedColumn(t)
    ensures InProgressColumn(t) && InCompletedColumn(t) <==> InTwoColumns(t)
  {
  }

  /** A task whose two flags agree lies in exactly one column. */
  lemma ConsistentInOneColumn(t: Task)
    requires Consistent(t)
    ensures !InTwoColumns(t)
  {
  }

  /**
   * The three column counts add up to the number of tasks plus the number of
   * tasks shown twice (in progress and ticked).
   */
  lemma {:induction false} ColumnCounts(tasks: seq<Task>)
    ensures |Seqs.Filter(tasks, InPendingColumn)| + |Seqs.Filter(tasks, InProgressColumn)|
          + |Seqs.Filter(tasks, InCompletedColumn)|
         == |tasks| + |Seqs.Filter(tasks, InTwoColumns)|
  {
    if tasks != [] {
      ColumnCounts(tasks[1..]);
    }
  }

  /** When every task's flags agree, the columns partition the store. */
  lemma ConsistentColumnsPartition(tasks: seq<Task>)
    requires forall t :: t in tasks ==> Consistent(t)
    ensures |Seqs.Filter(tasks, InPendingColumn)| + |Seqs.Filter(tasks, InProgressColumn)|
          + |Seqs.Filter(tasks, InCompletedColumn)| == |tasks|
  {
    ColumnCounts(tasks);
    Seqs.FilterDropsAll(tasks, InTwoColumns);
  }

  /** The header statistics. */
  datatype Stats = Stats(total: nat, completed: nat, pending: int)

  /** `updateStats`: pending is computed as total minus completed (script.js:107-109). */
  function StatsOf(tasks: seq<Task>): (s: Stats)
    ensures s.completed <= s.total == |tasks|
    ensures s.completed + s.pending == s.total
  {
    var completed := |Seqs.Filter(tasks, InCompletedColumn)|;
    Stats(|tasks|, completed, |tasks| - completed)
  }

  /** The pending figure is exactly the number of tasks that are not completed. */
  lemma {:induction false} PendingStatCountsOpenTasks(tasks: seq<Task>)
    ensures StatsOf(tasks).pending == |Seqs.Filter(tasks, IsOpen)|
  {
    if tasks != [] {
      PendingStatCountsOpenTasks(tasks[1..]);
    }
  }

  /** `Math.round(100 * c / t)` with `0` for `t == 0`, in integers: round half up. */
  function Percent(c: nat, t: nat): (p: nat)
    ensures t == 0 ==> p == 0
    ensures t > 0 ==> p * (2 * t) <= 200 * c + t < (p + 1) * (2 * t)
    ensures c <= t ==> p <= 100
  {
    if t == 0 then 0
    else
      var p := (200 * c + t) / (2 * t);
      DivBounds(200 * c + t, 2 * t);
      assert c <= t ==> p <= 100 by {
        CancelLt(p, 101, 2 * t);
      }
      p
  }

  lemma DivBounds(n: nat, d: nat)
    requires d > 0
    ensures (n / d) * d <= n < (n / d + 1) * d
  {
  }

  lemma CancelLt(p: int, q: int, t: int)
    requires t > 0
    ensures p * t < q * t ==> p < q
  {
  }

  /** No completed tasks show 0%; all of a non-empty set completed shows 100%. */
  lemma PercentEnds(c: nat, t: nat)
    ensures c == 0 ==> Percent(c, t) == 0
    ensures 0 < t && c == t ==> Percent(c, t) == 100
  {
    if t > 0 {
      var p := Percent(c, t);
      CancelLt(p, 1, 2 * t);
      CancelLt(100, p + 1, 2 * t);
    }
  }

  /** More completed tasks never show a smaller percentage. */
  lemma PercentMonotone(c1: nat, c2: nat, t: nat)
    requires c1 <= c2
    ensures Percent(c1, t) <= Percent(c2, t)
  {
    if t > 0 {
      CancelLt(Percent(c1, t), Percent(c2, t) + 1, 2 * t);
    }
  }

  /** One line of the category panel. */
  datatype CategoryStat = CategoryStat(category: Category, total: nat, completed: nat, percentage: nat)

  /** The tasks of category `id`. */
  function InCategory(id: string): Task -> bool {
    (t: Task) => t.category == id
  }

  /** The completed tasks of category `id`. */
  function CompletedIn(id: string): Task -> bool {
    (t: Task) => t.category == id && t.completed
  }

  /** `renderCategoryStats` for one category (script.js:569-576). */
  function CategoryStatOf(c: Category, tasks: seq<Task>): (s: CategoryStat)
    ensures s.category == c && s.completed <= s.total <= |tasks|
    ensures s.total == |Seqs.Filter(tasks, InCategory(c.id))|
    ensures s.completed == |Seqs.Filter(tasks, CompletedIn(c.id))|
    ensures s.percentage == Percent(s.completed, s.total) <= 100
    ensures s.total == 0 ==> s.percentage == 0
  {
    var inCategory := Seqs.Filter(tasks, InCategory(c.id));
    var completed := Seqs.Filter(inCategory, InCompletedColumn);
    Seqs.FilterFilter(tasks, InCategory(c.id), InCompletedColumn, CompletedIn(c.id));
    CategoryStat(c, |inCategory|, |completed|, Percent(|completed|, |inCategory|))
  }

  /** The category panel: one line per category, in registry order. */
  function CategoryStats(categories: seq<Category>, tasks: seq<Task>): (r: seq<CategoryStat>)
    ensures |r| == |categories|
    ensures forall i :: 0 <= i < |r| ==> r[i] == CategoryStatOf(categories[i], tasks)
  {
    Seqs.Map(categories, c => CategoryStatOf(c, tasks))
  }

  /** A category no task refers to shows 0 of 0 at 0%. */
  lemma EmptyCategoryShowsZero(c: Category, tasks: seq<Task>)
    requires forall t :: t in tasks ==> t.category != c.id
    ensures CategoryStatOf(c, tasks) == CategoryStat(c, 0, 0, 0)
  {
    Seqs.FilterDropsAll(tasks, InCategory(c.id));
  }

  /** `updateProgressRing`: the rounded share of completed tasks (script.js:630-632). */
  function Progress(tasks: seq<Task>): (p: nat)
    ensures p == Percent(StatsOf(tasks).completed, |tasks|) <= 100
    ensures tasks == [] ==> p == 0
  {
    Percent(StatsOf(tasks).completed, |tasks|)
  }

  /** A non-empty store whose tasks are all completed shows 100%; one with none completed shows 0%. */
  lemma ProgressEnds(tasks: seq<Task>)
    ensures tasks != [] && (forall t :: t in tasks ==> t.completed) ==> Progress(tasks) == 100
    ensures (forall t :: t in tasks ==> !t.completed) ==> Progress(tasks) == 0
  {
    if forall t :: t in tasks ==> t.completed {
      Seqs.FilterKeepsAll(tasks, InCompletedColumn);
      PercentEnds(|tasks|, |tasks|);
    }
    if forall t :: t in tasks ==> !t.completed {
      Seqs.FilterDropsAll(tasks, InCompletedColumn);
      PercentEnds(0, |tasks|);
    }
  }

  /** `getPriorityColor`: the accent colour of each priority (script.js:775-783). */
  function PriorityColor(p: Priority): (c: string)
    ensures |c| == 7 && c[0] == '#'
  {
    match p
    case Low => "#10B981"
    case Medium => "#F59E0B"
    case High => "#F97316"
    case Urgent => "#EF4444"
  }

  /** Different priorities are drawn in different colours. */
  lemma PriorityColorsDistinct(p: Priority, q: Priority)
    ensures PriorityColor(p) == PriorityColor(q) <==> p == q
  {
  }
}
