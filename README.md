# xtracker progress bookkeeping in Dafny

xtracker is a single-page goal tracker. The user saves a goal: a title, a
list of tasks, a start date and a deadline. Each day they tick the tasks
they did, and the app keeps one record per day in its `history` store. From
those records it shows:

- today's percentage;
- overall progress, with a HALFWAY badge once half the goal's days are done;
- a streak of consecutive fully done days, with STREAK_3 and STREAK_7 badges.

Every badge lives in an append-only list in the `meta` store.

This project models that bookkeeping in `main.js`:

- `datesBetween`;
- the backfill of missed days (`ensureMissedDaysMarked`);
- `computeOverall` and the HALFWAY rule of `updateOverall`;
- `updateStreak`;
- `updateTodayProgress`;
- `awardBadge`;
- the `toggle` closure and the `markAll` handler of `loadTracking`;
- the validation and today-record reset of the goal form's save handler.

It proves properties of each.

Modules:

- `Wrappers`: `Option` and `Result`.
- `Dates`: days as integers, and the day-range enumeration.
- `Badges`: the badge catalogue and the earned list.
- `Records`: the goal, the daily record, and the record changes made by a tick, by mark-all and by the backfill.
- `Progress`: the percentages, overall progress, HALFWAY and the streak.
- `GoalSetup`: `trim`, splitting the task text, and validation.
- `Tracker`: the three stores as the fields of the class `GoalTracker`, plus the handlers that change them.
  - `goals` is the `goal` field.
  - `history` is a `map` from day to record.
  - `meta` is the `streak` and `badges` fields.

A day is an integer. Consecutive calendar days differ by one, and integer
order is the order of the `YYYY-MM-DD` keys the app compares. "Now" is the
parameter `today`. A record's `checkedIndices` is a set. A record the source
creates without that field is modelled with the empty set, since the source
reads it as `|| []`.

A call of `updateStreak` that counts seven or more days awards STREAK_7 and
not STREAK_3 (main.js:231-232); only a call that counts three to six days
awards STREAK_3. `Progress.SevenDayStreak` states the seven-day case.

## Model

| member | source | states |
|---|---|---|
| Dates.DayRange | main.js:165-174 | the range from `s` to `e` has `e - s + 1` days, none when `s > e`, and its `k`-th day is `s + k` |
| Dates.DayRangeMembers | main.js:165-174 | a day occurs in the range exactly when it lies between the two ends |
| Dates.DayRangeConsecutive | main.js:165-174 | each day of the range is one after the previous one (strictly ascending) |
| Dates.DatesBetween | main.js:165-174 | the pushing loop returns exactly the day range, with the stated length and one-day steps |
| Dates.DaySetSize | main.js:199-200 | the set of days of a range has as many elements as the range has days |
| Badges.Awarded | main.js:155-162 | after `awardBadge(id)` the id is present; the old list is a prefix; the list grows by one exactly when the id is new; nothing else is added; no duplicates are created |
| Badges.AwardedIdempotent | main.js:155-162 | awarding the same badge twice leaves the list as awarding it once |
| Badges.AwardedIf | main.js:411-414 | a conditional award keeps the old list as a prefix, adds the badge only when the condition holds, and creates no duplicate |
| Badges.AwardedOpt | main.js:231-232 | awarding the streak badge, if any, keeps the old list as a prefix, adds at most that one badge, and creates no duplicate |
| Badges.AwardedTwice | main.js:577-582 | repeating the HALFWAY award and the streak award with the same outcome adds nothing |
| Records.Untouched | main.js:186-192 | a backfilled or fresh record has no ticks, the given task count, and is not done; it satisfies the record invariant exactly when the task count is positive |
| Records.Toggled | main.js:325-342 | ticking adds index `i` and unticking removes it; no other index changes; `totalCount` is kept; the count equals the number of ticked indices, and the day is done exactly when the count equals `totalCount` |
| Records.ToggledIdempotent | main.js:325-342 | setting a task to the same state twice gives the same record as once |
| Records.ToggledBack | main.js:325-342 | ticking an unticked task of a consistent record and then unticking it restores the record |
| Records.TaskIndices | main.js:367 | the indices of an `n`-task list are exactly `0 .. n-1`, `n` of them |
| Records.MarkedAll | main.js:366-370 | mark-all ticks exactly `0 .. n-1` and sets the count to `n` and the day done; it keeps `totalCount` without consulting it, and the result is consistent exactly when `totalCount == n` |
| Records.FilledThrough | main.js:185-195 | filling keeps every existing record; its days are the old days plus those from the start through the last filled day; each added record is untouched |
| Records.FilledThroughUnique | main.js:185-195 | any history with those three properties is the filled history |
| Records.Backfilled | main.js:175-196 | the backfill never changes an existing record; it adds exactly the days in `[startDate, deadline]` before today that had none; it adds them untouched |
| Records.BackfilledIdempotent | main.js:175-196 | backfilling twice leaves the same history as backfilling once |
| Records.DoneSet | main.js:210 | the set of fully done days; `BackfillKeepsDoneDays` shows the backfill leaves it unchanged, `OverallOfDoneSet` and `OverallMonotone` show overall progress depends on it alone, and `CountStreak` counts runs in it |
| Records.BackfillKeepsDoneDays | main.js:186-192 | backfilling adds no done day |
| Progress.RoundedPercent | main.js:204 | `Math.round(part / max(1, whole) * 100)`; its properties are carried by `RoundedPercentNearest`, `RoundedPercentRange` and `RoundedPercentMonotone` |
| Progress.RoundedPercentNearest | main.js:204 | the rounded percentage is within one half of `100 * part / max(1, whole)`, halves rounded up |
| Progress.RoundedPercentRange | main.js:204 | a part no larger than the whole gives at most 100, the whole gives 100, and zero gives 0 |
| Progress.RoundedPercentMonotone | main.js:204 | a larger part never gives a smaller percentage |
| Progress.TodayPercent | main.js:399-405 | today's percentage of ticked tasks over the goal's task count lies in 0..100; it is 100 when all tasks are ticked and 0 when none is |
| Progress.DoneInRangeOfDoneSet | main.js:201-203 | the done days counted depend only on which days are done |
| Progress.DoneInRangeSize | main.js:199-203 | the done days in range are no more than the days of the range |
| Progress.ComputeOverall | main.js:197-206 | `totalDays` is the number of days from start to deadline; `doneDays <= totalDays`; `pct` lies in 0..100 |
| Progress.OverallOfDoneSet | main.js:197-206 | overall progress depends only on which days are done |
| Progress.OverallMonotone | main.js:197-206 | more done days never lower `doneDays` or `pct` |
| Progress.HalfwayReached | main.js:412 | HALFWAY's condition `doneDays / totalDays >= 0.5` on a non-empty range; `HalfwayAndPercent` relates it to the displayed percentage and `GoalTracker.UpdateOverall` awards HALFWAY exactly when it holds |
| Progress.HalfwayAndPercent | main.js:407-415 | when HALFWAY's condition holds the display shows at least 50%, and a display above 50% means it holds |
| Progress.JustUnderHalfShowsFifty | main.js:407-415 | for any goal of 200 days and history with 99 done days in range, `computeOverall` gives 200 days and 50%, and HALFWAY's condition does not hold |
| Progress.RunLengthUnique | main.js:207-232 | the length of the maximal run of done days ending on a given day is unique |
| Progress.CountStreak | main.js:211-226 | the backward walk counts the maximal run of done days; the run ends today if today is done, else yesterday; the day before the run is not done |
| Progress.StreakBadge | main.js:231-232 | STREAK_7 from seven days, STREAK_3 from three to six, none below three, so at most one per call |
| Progress.SevenDayStreak | main.js:224-232 | when the last seven days of the history are done and the day before them is not, every run length the count can reach is seven, its badge is STREAK_7, and the award adds no STREAK_3 |
| GoalSetup.TrimStart | main.js:534 | removes exactly a white-space prefix and leaves a non-space first character |
| GoalSetup.TrimEnd | main.js:534 | removes exactly a white-space suffix and leaves a non-space last character |
| GoalSetup.Trim | main.js:534 | `trim()` leaves no white space at either end and is empty exactly when the input is all white space |
| GoalSetup.TrimIdempotent | main.js:534 | trimming twice equals trimming once |
| GoalSetup.TrimOfTrimmed | main.js:537 | a string without white space at its ends is its own trim |
| GoalSetup.SplitLines | main.js:535-536 | `split("\n")` yields at least one piece, and no piece holds a line feed |
| GoalSetup.JoinSplitLines | main.js:535-536 | joining the pieces with line feeds gives back the text |
| GoalSetup.SplitLinesBlank | main.js:535-537 | every piece is blank exactly when the text is all white space |
| GoalSetup.NonBlankTrimmed | main.js:537-538 | trimming and dropping empty lines never yields more tasks than lines |
| GoalSetup.NonBlankTrimmedEmpty | main.js:537-538 | no task remains exactly when every line is blank |
| GoalSetup.NonBlankTrimmedTasks | main.js:537-538 | every remaining task is non-empty and trimmed |
| GoalSetup.TaskList | main.js:535-538 | every task of the form's text is non-empty and trimmed; there is none exactly when the text is all white space |
| GoalSetup.ValidateGoal | main.js:533-559 | the save is refused for a missing title, task list or deadline exactly when one is missing; it is refused for a start after the deadline exactly in that case, with a missing start defaulting to today; otherwise the goal holds the trimmed title, the task list, the dates and `completed == false`, and is valid |
| Tracker.WithToday | main.js:283-304 | after opening the tracking view, today has a record; every existing record is kept; a missing today record is created untouched |
| Tracker.AlignToday | main.js:562-575 | today's record is kept when it has the new task count and is otherwise replaced by an untouched one; every other day is unchanged |
| Tracker.GoalTracker.AwardBadge | main.js:155-162 | the earned list becomes `Awarded` of the old one, and stays duplicate-free |
| Tracker.GoalTracker.EnsureMissedDaysMarked | main.js:175-196 | the loop with its early stop at today leaves the history equal to `Backfilled` of the old one |
| Tracker.GoalTracker.UpdateStreak | main.js:207-232 | the stored streak is the maximal run length; the earned list gains at most the one streak badge for that count |
| Tracker.GoalTracker.UpdateOverall | main.js:407-415 | returns `ComputeOverall` of the stored history, and awards HALFWAY exactly when `totalDays > 0` and `2 * doneDays >= totalDays` |
| Tracker.GoalTracker.Refresh | main.js:393-395 | overall progress then streak: the result, streak and badges are as the two steps specify |
| Tracker.GoalTracker.LoadTracking | main.js:283-304 | backfills and creates today's record if missing, then refreshes; the record invariant is preserved |
| Tracker.GoalTracker.Toggle | main.js:324-352 | only the day's record changes, as `Toggled`; FIRST_CHECK on a tick; FIRST_100 when the day is done; then the refresh; the record invariant is preserved |
| Tracker.GoalTracker.MarkAll | main.js:366-381 | only the day's record changes, as `MarkedAll`; FIRST_100; then the refresh |
| Tracker.GoalTracker.SaveGoal | main.js:533-584 | the result is `ValidateGoal`; a refused save changes no store; a valid one stores the goal and leaves today aligned and the history backfilled, with the maximal-run streak and the badges of one refresh |
| Tracker.GoalTracker.StartGoal | main.js:561-582 | after storing a valid goal, the second refresh of the tracking view awards nothing beyond the first |
| Tracker.GoalTracker.AlignTodayRecord | main.js:562-575 | the history becomes `AlignToday` of the old one, and the record invariant is preserved |

## Left out

- IndexedDB (`openDB`, `get`, `put`, `getAll`). The stores are the fields of `GoalTracker`. The promise chaining is left out, and so is the interleaving of handlers that rapid clicks can cause.
- Date parsing, formatting and time zones (`fmt`, `fmtDisplay`, `new Date`). Days are integers and "now" is a parameter. Malformed date strings are not represented; an empty date field is `None`.
- Floating point: `Math.round` of a binary float is modelled on exact rationals. A float that lands just below a `.5` boundary may round differently.
- Confetti, all DOM rendering and navigation, `alert`, the quote of the day, and the badges' display names and tips.
- The `completeGoal` handler, and with it the only award of GOAL_DONE. GOAL_DONE stays in the catalogue.
- service-worker.js: cache and fetch plumbing only.
- The order of `checkedIndices`: it is a set, so only which indices are ticked is modelled.
- The captured `rec`. `Toggle` and `MarkAll` act on the record stored under `day` at the time of the call; the closure instead writes back the object it captured when the view opened. The two differ only if another handler rewrote that day's record in between.
- Where the tick comes from: the checkbox state that decides `nowChecked` is a parameter of `Toggle`.
- The percentages the save handler and the tracking view display. `StartGoal` computes them and discards them.
