/**
 * `getFilteredTasks` (script.js:129-177): search, then the status filter, then a
 * comparator sort, all on a copy of the store.
 */
module Query {
  import opened Wrappers
  import opened Tasks
  import Text
  import Seqs

  /** The filter select: `all | pending | completed | overdue`. */
  datatype StatusFilter = AllTasks | PendingTasks | CompletedTasks | OverdueTasks

  /** The sort select: `priority | dueDate | alphabetical | created` (the default). */
  datatype SortKey = ByPriority | ByDueDate | Alphabetical | ByCreated

  /** The search box matches a task's title, description or any tag, lower-cased (script.js:134-138). */
  predicate MatchesSearch(query: string, t: Task) {
    Text.Contains(Text.Lower(t.title), query)
    || Text.Contains(Text.Lower(t.description), query)
    || exists tag :: tag in t.tags && Text.Contains(Text.Lower(tag), query)
  }

  /** The status filter (script.js:142-156); `now` is the current time. */
  predicate PassesFilter(f: StatusFilter, now: int, t: Task) {
    match f
    case AllTasks => true
    case PendingTasks => !t.completed
    case CompletedTasks => t.completed
    case OverdueTasks => t.dueDate.Some? && !t.completed && t.dueDate.value < now
  }

  /** The tasks the list view shows, before sorting. */
  predicate Selected(query: string, f: StatusFilter, now: int, t: Task) {
    (query == [] || MatchesSearch(query, t)) && PassesFilter(f, now, t)
  }

  /** The search predicate for a query, as a function value. */
  function SearchBy(query: string): Task -> bool {
    t => MatchesSearch(query, t)
  }

  /** The status filter as a function value. */
  function FilterBy(f: StatusFilter, now: int): Task -> bool {
    t => PassesFilter(f, now, t)
  }

  /** The whole selection as a function value. */
  function SelectedBy(query: string, f: StatusFilter, now: int): Task -> bool {
    t => Selected(query, f, now, t)
  }

  /** Steps 1 and 2: the search (skipped for an empty query) and the status filter. */
  function Select(tasks: seq<Task>, query: string, f: StatusFilter, now: int): (r: seq<Task>)
    ensures forall t :: multiset(r)[t] == if Selected(query, f, now, t) then multiset(tasks)[t] else 0
  {
    var searched := if query == [] then tasks else Seqs.Filter(tasks, SearchBy(query));
    Seqs.FilterCounts(tasks, SearchBy(query));
    Seqs.FilterCounts(searched, FilterBy(f, now));
    match f
    case AllTasks => searched
    case _ => Seqs.Filter(searched, FilterBy(f, now))
  }

  /** The selection keeps the store's order: it is one filter by `Selected`. */
  lemma SelectInStoreOrder(tasks: seq<Task>, query: string, f: StatusFilter, now: int)
    ensures Select(tasks, query, f, now) == Seqs.Filter(tasks, SelectedBy(query, f, now))
  {
    var sel := SelectedBy(query, f, now);
    if query == [] {
      if f == AllTasks {
        Seqs.FilterKeepsAll(tasks, sel);
      } else {
        Seqs.FilterExt(tasks, FilterBy(f, now), sel);
      }
    } else {
      if f == AllTasks {
        Seqs.FilterExt(tasks, SearchBy(query), sel);
      } else {
        Seqs.FilterFilter(tasks, SearchBy(query), FilterBy(f, now), sel);
      }
    }
  }

  /** The rank the priority sort uses (script.js:162). */
  function Rank(p: Priority): int {
    match p
    case Low => 1
    case Medium => 2
    case High => 3
    case Urgent => 4
  }

  /**
   * Stand-in for `localeCompare`: lexicographic order of character codes,
   * negative, zero or positive.
   */
  function CompareTitles(a: string, b: string): int
  {
    if a == [] then (if b == [] then 0 else -1)
    else if b == [] then 1
    else if a[0] < b[0] then -1
    else if a[0] > b[0] then 1
    else CompareTitles(a[1..], b[1..])
  }

  /** The comparator passed to `sort` (script.js:159-174): negative puts `a` first. */
  function Compare(key: SortKey, a: Task, b: Task): int
  {
    match key
    case ByPriority => Rank(b.priority) - Rank(a.priority)
    case ByDueDate =>
      if a.dueDate.None? && b.dueDate.None? then 0
      else if a.dueDate.None? then 1
      else if b.dueDate.None? then -1
      else a.dueDate.value - b.dueDate.value
    case Alphabetical => CompareTitles(a.title, b.title)
    case ByCreated => b.createdAt - a.createdAt
  }

  /**
   * What each sort key means: higher priority first, earlier due date first with
   * undated tasks last, titles tied only when equal, newer first.
   */
  lemma CompareMeaning(key: SortKey, a: Task, b: Task)
    ensures key == ByPriority ==> (Compare(key, a, b) < 0 <==> Rank(a.priority) > Rank(b.priority))
    ensures key == ByDueDate && a.dueDate.Some? && b.dueDate.Some? ==>
      (Compare(key, a, b) < 0 <==> a.dueDate.value < b.dueDate.value)
    ensures key == ByDueDate && a.dueDate.Some? && b.dueDate.None? ==> Compare(key, a, b) < 0
    ensures key == ByDueDate && a.dueDate.None? ==> Compare(key, a, b) >= 0
    ensures key == Alphabetical ==> (Compare(key, a, b) == 0 <==> a.title == b.title)
    ensures key == ByCreated ==> (Compare(key, a, b) < 0 <==> a.createdAt > b.createdAt)
  {
    CompareTitlesZero(a.title, b.title);
  }

  /** Two titles compare equal only when they are the same string. */
  lemma {:induction false} CompareTitlesZero(a: string, b: string)
    ensures CompareTitles(a, b) == 0 <==> a == b
  {
    if a != [] && b != [] && a[0] == b[0] {
      CompareTitlesZero(a[1..], b[1..]);
      assert a == [a[0]] + a[1..] && b == [b[0]] + b[1..];
    }
  }

  lemma {:induction false} CompareTitlesAntisymmetric(a: string, b: string)
    ensures CompareTitles(a, b) == -CompareTitles(b, a)
  {
    if a != [] && b != [] && a[0] == b[0] {
      CompareTitlesAntisymmetric(a[1..], b[1..]);
    }
  }

  lemma {:induction false} CompareTitlesTransitive(a: string, b: string, c: string)
    requires CompareTitles(a, b) <= 0 && CompareTitles(b, c) <= 0
    ensures CompareTitles(a, c) <= 0
  {
    if a != [] && b != [] && c != [] && a[0] == b[0] && b[0] == c[0] {
      CompareTitlesTransitive(a[1..], b[1..], c[1..]);
    }
  }

  /** Swapping the arguments negates the comparator. */
  lemma CompareAntisymmetric(key: SortKey, a: Task, b: Task)
    ensures Compare(key, a, b) == -Compare(key, b, a)
  {
    if key == Alphabetical {
      CompareTitlesAntisymmetric(a.title, b.title);
    }
  }

  /** "Not after" is transitive for every sort key. */
  lemma CompareTransitive(key: SortKey, a: Task, b: Task, c: Task)
    requires Compare(key, a, b) <= 0 && Compare(key, b, c) <= 0
    ensures Compare(key, a, c) <= 0
  {
    if key == Alphabetical {
      CompareTitlesTransitive(a.title, b.title, c.title);
    }
  }

  /** No element is placed after one the comparator puts strictly before it. */
  predicate Sorted(key: SortKey, s: seq<Task>) {
    forall i, j :: 0 <= i < j < |s| ==> Compare(key, s[i], s[j]) <= 0
  }

  /** Inserts `x` before the first element it does not follow; ties keep `x` first. */
  function Insert(key: SortKey, x: Task, s: seq<Task>): seq<Task>
  {
    if s == [] then [x]
    else if Compare(key, x, s[0]) <= 0 then [x] + s
    else [s[0]] + Insert(key, x, s[1..])
  }

  lemma {:induction false} InsertPermutes(key: SortKey, x: Task, s: seq<Task>)
    ensures multiset(Insert(key, x, s)) == multiset(s) + multiset{x}
  {
    if s != [] {
      assert s == [s[0]] + s[1..];
      if Compare(key, x, s[0]) > 0 {
        InsertPermutes(key, x, s[1..]);
      }
    }
  }

  /** An element that no later element precedes can head a sorted sequence. */
  lemma SortedCons(key: SortKey, y: Task, r: seq<Task>)
    requires Sorted(key, r)
    requires forall z :: z in r ==> Compare(key, y, z) <= 0
    ensures Sorted(key, [y] + r)
  {
    var s := [y] + r;
    forall i, j | 0 <= i < j < |s| ensures Compare(key, s[i], s[j]) <= 0 {
      if i == 0 {
        assert s[j] == r[j - 1] && r[j - 1] in r;
      } else {
        assert s[i] == r[i - 1] && s[j] == r[j - 1];
      }
    }
  }

  /** The head of a sorted sequence precedes-or-ties every element of it. */
  lemma HeadFirst(key: SortKey, s: seq<Task>, z: Task)
    requires Sorted(key, s) && s != [] && z in s
    ensures Compare(key, s[0], z) <= 0
  {
    var k :| 0 <= k < |s| && s[k] == z;
    if k == 0 {
      CompareAntisymmetric(key, z, z);
    }
  }

  lemma {:induction false} InsertSorted(key: SortKey, x: Task, s: seq<Task>)
    requires Sorted(key, s)
    ensures Sorted(key, Insert(key, x, s))
  {
    if s == [] {
    } else if Compare(key, x, s[0]) <= 0 {
      forall z | z in s ensures Compare(key, x, z) <= 0 {
        HeadFirst(key, s, z);
        CompareTransitive(key, x, s[0], z);
      }
      SortedCons(key, x, s);
    } else {
      var rest := Insert(key, x, s[1..]);
      InsertSorted(key, x, s[1..]);
      InsertPermutes(key, x, s[1..]);
      CompareAntisymmetric(key, x, s[0]);
      forall z | z in rest ensures Compare(key, s[0], z) <= 0 {
        assert z in multiset(rest);
        if z != x {
          assert z in multiset(s[1..]);
          assert z in s;
          HeadFirst(key, s, z);
        }
      }
      SortedCons(key, s[0], rest);
    }
  }

  /**
   * `Array.prototype.sort` with the comparator: an insertion sort that returns its
   * input reordered, in comparator order. Earlier elements are inserted in front of
   * equal later ones, so ties keep their order (SortStable).
   */
  function Sort(key: SortKey, s: seq<Task>): (r: seq<Task>)
    ensures multiset(r) == multiset(s)
    ensures Sorted(key, r)
  {
    if s == [] then []
    else
      var rest := Sort(key, s[1..]);
      InsertPermutes(key, s[0], rest);
      InsertSorted(key, s[0], rest);
      assert s == [s[0]] + s[1..];
      Insert(key, s[0], rest)
  }

  /** The tasks the comparator cannot tell apart from `z`. */
  function TiesWith(key: SortKey, z: Task): Task -> bool {
    y => Compare(key, z, y) == 0
  }

  /** Two elements that `z` ties with tie with each other, so the first never follows the second. */
  lemma TiesAreTied(key: SortKey, x: Task, y: Task, z: Task)
    requires Compare(key, z, x) == 0 && Compare(key, z, y) == 0
    ensures Compare(key, x, y) <= 0
  {
    CompareAntisymmetric(key, x, z);
    CompareTransitive(key, x, z, y);
  }

  /** `Insert` places `x` right after the elements it does not precede. */
  lemma {:induction false} InsertSplit(key: SortKey, x: Task, s: seq<Task>) returns (k: nat)
    ensures k <= |s| && Insert(key, x, s) == s[..k] + [x] + s[k..]
    ensures forall i :: 0 <= i < k ==> Compare(key, x, s[i]) > 0
  {
    if s == [] || Compare(key, x, s[0]) <= 0 {
      k := 0;
    } else {
      var j := InsertSplit(key, x, s[1..]);
      k := j + 1;
      assert s[..k] == [s[0]] + s[1..][..j];
      assert s[k..] == s[1..][j..];
    }
  }

  /** Nothing that `x` does not precede ties with what `x` ties with. */
  lemma TiesNotBefore(key: SortKey, x: Task, a: seq<Task>, z: Task)
    requires forall i :: 0 <= i < |a| ==> Compare(key, x, a[i]) > 0
    requires Compare(key, z, x) == 0
    ensures forall y :: y in a ==> !TiesWith(key, z)(y)
  {
    forall y | y in a ensures !TiesWith(key, z)(y) {
      var i :| 0 <= i < |a| && a[i] == y;
      if Compare(key, z, y) == 0 {
        TiesAreTied(key, x, y, z);
      }
    }
  }

  /** Inserting `x` puts it in front of every element it ties with. */
  lemma InsertFilter(key: SortKey, x: Task, s: seq<Task>, z: Task)
    ensures Seqs.Filter(Insert(key, x, s), TiesWith(key, z))
         == (if Compare(key, z, x) == 0 then [x] else []) + Seqs.Filter(s, TiesWith(key, z))
  {
    var k := InsertSplit(key, x, s);
    var a, b := s[..k], s[k..];
    assert a + b == s;
    if Compare(key, z, x) == 0 {
      TiesNotBefore(key, x, a, z);
      Seqs.FilterDropsAll(a, TiesWith(key, z));
      Seqs.FilterFront(a, x, b, TiesWith(key, z));
    } else {
      Seqs.FilterSkip(a, x, b, TiesWith(key, z));
    }
  }

  /** The sort is stable: tasks that tie keep the order they had in the input. */
  lemma {:induction false} SortStable(key: SortKey, s: seq<Task>, z: Task)
    ensures Seqs.Filter(Sort(key, s), TiesWith(key, z)) == Seqs.Filter(s, TiesWith(key, z))
  {
    if s != [] {
      SortStable(key, s[1..], z);
      InsertFilter(key, s[0], Sort(key, s[1..]), z);
    }
  }

  /** Sorting an already sorted sequence leaves it as it is: ties are never swapped. */
  lemma {:induction false} SortOfSorted(key: SortKey, s: seq<Task>)
    requires Sorted(key, s)
    ensures Sort(key, s) == s
  {
    if s != [] {
      var tail := s[1..];
      assert Sorted(key, tail) by {
        forall i, j | 0 <= i < j < |tail| ensures Compare(key, tail[i], tail[j]) <= 0 {
          assert tail[i] == s[i + 1] && tail[j] == s[j + 1];
        }
      }
      SortOfSorted(key, tail);
      assert Sort(key, s) == Insert(key, s[0], tail);
      if tail != [] {
        assert Compare(key, s[0], tail[0]) <= 0;
      }
      assert s == [s[0]] + tail;
    }
  }

  /**
   * The whole pipeline: the selected tasks, each as often as in the store, in
   * comparator order, and tied tasks in the order the store has them.
   */
  function FilteredTasks(tasks: seq<Task>, query: string, f: StatusFilter, key: SortKey, now: int): (r: seq<Task>)
    ensures forall t :: multiset(r)[t] == if Selected(query, f, now, t) then multiset(tasks)[t] else 0
    ensures forall t :: t in r <==> t in tasks && Selected(query, f, now, t)
    ensures Sorted(key, r)
    ensures forall z :: Seqs.Filter(r, TiesWith(key, z))
                     == Seqs.Filter(Seqs.Filter(tasks, SelectedBy(query, f, now)), TiesWith(key, z))
  {
    var selected := Select(tasks, query, f, now);
    SelectInStoreOrder(tasks, query, f, now);
    var r := Sort(key, selected);
    forall z
      ensures Seqs.Filter(r, TiesWith(key, z)) == Seqs.Filter(selected, TiesWith(key, z))
    {
      SortStable(key, selected, z);
    }
    assert forall t :: t in r <==> t in multiset(r);
    r
  }

  /** Under the priority sort, urgent comes before high, high before medium, medium before low. */
  lemma PriorityOrder(s: seq<Task>, i: int, j: int)
    requires Sorted(ByPriority, s) && 0 <= i < j < |s|
    ensures Rank(s[i].priority) >= Rank(s[j].priority)
  {
  }

  /** Under the due-date sort, every task without a due date comes after every task with one. */
  lemma DueDateOrder(s: seq<Task>, i: int, j: int)
    requires Sorted(ByDueDate, s) && 0 <= i < j < |s|
    ensures s[i].dueDate.None? ==> s[j].dueDate.None?
    ensures s[i].dueDate.Some? && s[j].dueDate.Some? ==> s[i].dueDate.value <= s[j].dueDate.value
  {
  }

  /** Under the default sort, newer tasks come first. */
  lemma CreatedOrder(s: seq<Task>, i: int, j: int)
    requires Sorted(ByCreated, s) && 0 <= i < j < |s|
    ensures s[i].createdAt >= s[j].createdAt
  {
  }

  /** The overdue filter never returns a completed task or one without a due date. */
  lemma OverdueNeverCompleted(tasks: seq<Task>, query: string, key: SortKey, now: int, t: Task)
    requires t in FilteredTasks(tasks, query, OverdueTasks, key, now)
    ensures !t.completed && t.dueDate.Some? && t.dueDate.value < now
  {
  }
}
