/** The goal and the per-day records of the history store, and the changes
    the progress logic makes to them: toggling one task, marking every task
    done, and backfilling the days the user never opened. */
module Records {

  import opened Dates

  /** The single active goal (`goals` store, key `current`). */
  datatype Goal = Goal(title: string, tasks: seq<string>, startDate: Day, deadline: Day, completed: bool)

  /** What a saved goal satisfies: a title, at least one task, and a start
      no later than the deadline. */
  predicate ValidGoal(g: Goal) {
    g.title != [] && g.tasks != [] && g.startDate <= g.deadline
  }

  /** One day's entry in the `history` store. `checkedIndices` holds the
      positions, in the goal's task list, of the tasks ticked that day. */
  datatype DailyRecord = DailyRecord(completedCount: nat, totalCount: nat, allDone: bool, checkedIndices: set<int>)

  /** The record invariant: the count matches the ticked tasks, and the day
      is done exactly when every task of the day is ticked. */
  predicate Consistent(r: DailyRecord) {
    r.completedCount == |r.checkedIndices| && r.allDone == (r.completedCount == r.totalCount)
  }

  /** The record made for a day nobody has ticked anything on yet (by the
      backfill, when tracking opens, and when a save resets today). */
  function Untouched(taskCount: nat): (r: DailyRecord)
    ensures r.completedCount == 0 && r.totalCount == taskCount && !r.allDone
    ensures r.checkedIndices == {}
    ensures Consistent(r) <==> taskCount != 0
  {
    DailyRecord(0, taskCount, false, {})
  }

  /** The record after the `toggle` closure sets task `i` to `check`. */
  function Toggled(r: DailyRecord, i: nat, check: bool): (r': DailyRecord)
    ensures i in r'.checkedIndices <==> check
    ensures forall j :: j != i ==> (j in r'.checkedIndices <==> j in r.checkedIndices)
    ensures r'.totalCount == r.totalCount
    ensures Consistent(r')
  {
    var idxs := if check then r.checkedIndices + {i} else r.checkedIndices - {i};
    var count := |idxs|;
    DailyRecord(count, r.totalCount, count == r.totalCount, idxs)
  }

  /** Toggling a task to the state it is already in changes nothing more. */
  lemma ToggledIdempotent(r: DailyRecord, i: nat, check: bool)
    ensures Toggled(Toggled(r, i, check), i, check) == Toggled(r, i, check)
  {
  }

  /** Ticking an unticked task and then unticking it restores the record,
      provided the record was consistent. */
  lemma ToggledBack(r: DailyRecord, i: nat)
    requires Consistent(r) && i !in r.checkedIndices
    ensures Toggled(Toggled(r, i, true), i, false) == r
  {
  }

  /** The positions `0 .. n-1` of a task list of length `n`. */
  function TaskIndices(n: nat): (s: set<int>)
    ensures forall k :: k in s <==> 0 <= k < n
    ensures |s| == n
  {
    DaySetSize(0, n - 1);
    DaySet(0, n - 1)
  }

  /** The record after the `markAll` handler for a goal of `n` tasks. The
      record's own `totalCount` is kept and not consulted. */
  function MarkedAll(r: DailyRecord, n: nat): (r': DailyRecord)
    ensures r'.checkedIndices == TaskIndices(n)
    ensures r'.completedCount == n && r'.allDone
    ensures r'.totalCount == r.totalCount
    ensures Consistent(r') <==> r.totalCount == n
  {
    DailyRecord(n, r.totalCount, true, TaskIndices(n))
  }

  /** The last day the backfill fills: the day before `today`, or the
      deadline when that comes first. */
  function LastMissedDay(g: Goal, today: Day): Day {
    Min(today - 1, g.deadline)
  }

  /** The history with an untouched record added for every day from the
      goal's start through `last` that has none. */
  function FilledThrough(h: map<Day, DailyRecord>, g: Goal, last: Day): (h': map<Day, DailyRecord>)
    ensures forall d :: d in h ==> d in h' && h'[d] == h[d]
    ensures forall d :: d in h' <==> d in h || g.startDate <= d <= last
    ensures forall d :: d in h' && d !in h ==> h'[d] == Untouched(|g.tasks|)
  {
    h + map d | g.startDate <= d <= last && d !in h :: Untouched(|g.tasks|)
  }

  /** Filling is determined by its three properties: a history that keeps
      every record of `h`, has exactly the days of `h` and the days from the
      start through `last`, and holds untouched records on the added days is
      the filled history. */
  lemma FilledThroughUnique(h: map<Day, DailyRecord>, g: Goal, last: Day, h': map<Day, DailyRecord>)
    requires forall d :: d in h' <==> d in h || g.startDate <= d <= last
    requires forall d :: d in h ==> d in h' && h'[d] == h[d]
    requires forall d :: d in h' && d !in h ==> h'[d] == Untouched(|g.tasks|)
    ensures h' == FilledThrough(h, g, last)
  {
    var filled := FilledThrough(h, g, last);
    forall d
      ensures d in h' <==> d in filled
      ensures d in h' ==> h'[d] == filled[d]
    {
    }
  }

  /** The history after `ensureMissedDaysMarked`: every day from the start
      through `LastMissedDay` that has no record gets an untouched one. */
  function Backfilled(h: map<Day, DailyRecord>, g: Goal, today: Day): (h': map<Day, DailyRecord>)
    ensures forall d :: d in h ==> d in h' && h'[d] == h[d]
    ensures forall d :: d in h' <==> d in h || (g.startDate <= d <= g.deadline && d < today)
    ensures forall d :: d in h' && d !in h ==> h'[d] == Untouched(|g.tasks|)
  {
    FilledThrough(h, g, LastMissedDay(g, today))
  }

  /** Backfilling again after a backfill changes nothing. */
  lemma BackfilledIdempotent(h: map<Day, DailyRecord>, g: Goal, today: Day)
    ensures Backfilled(Backfilled(h, g, today), g, today) == Backfilled(h, g, today)
  {
  }

  /** The days whose record says every task was done. */
  function DoneSet(h: map<Day, DailyRecord>): set<Day>
  {
    set d | d in h && h[d].allDone
  }

  /** Backfilled records are never done, so the done days are unchanged. */
  lemma BackfillKeepsDoneDays(h: map<Day, DailyRecord>, g: Goal, today: Day)
    ensures DoneSet(Backfilled(h, g, today)) == DoneSet(h)
  {
  }
}
