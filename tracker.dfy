/** The application's stores and the handlers that change them: badge
    awards, the backfill of missed days, the streak and overall updates,
    opening the tracking view, toggling a task, marking all tasks done, and
    saving the goal form. "Now" is the parameter `today`. */
module Tracker {

  import opened Wrappers
  import opened Dates
  import opened Badges
  import opened Records
  import opened Progress
  import opened GoalSetup

  /** Every record of the history satisfies the record invariant. */
  predicate AllConsistent(h: map<Day, DailyRecord>) {
    forall d :: d in h ==> Consistent(h[d])
  }

  /** The history after opening the tracking view: backfilled, and with an
      untouched record for today when it had none. */
  function WithToday(h: map<Day, DailyRecord>, g: Goal, today: Day): (h': map<Day, DailyRecord>)
    ensures today in h'
    ensures forall d :: d in h ==> d in h' && h'[d] == h[d]
    ensures today !in h ==> h'[today] == Untouched(|g.tasks|)
  {
    var filled := Backfilled(h, g, today);
    if today in filled then filled else filled[today := Untouched(|g.tasks|)]
  }

  /** Today's record after a successful save: replaced by an untouched one
      when missing or sized for a different number of tasks. */
  function AlignToday(h: map<Day, DailyRecord>, today: Day, taskCount: nat): (h': map<Day, DailyRecord>)
    ensures today in h' && h'[today].totalCount == taskCount
    ensures today in h && h[today].totalCount == taskCount ==> h' == h
    ensures today !in h || h[today].totalCount != taskCount ==> h'[today] == Untouched(taskCount)
    ensures forall d :: d != today ==> (d in h' <==> d in h) && (d in h ==> h'[d] == h[d])
  {
    if today !in h || h[today].totalCount != taskCount then h[today := Untouched(taskCount)] else h
  }

  /** Where the backfill loop stops: having walked `i` days from the start,
      either through the earlier of today and the deadline or up to today,
      the last day it filled is `LastMissedDay`, or both lie before the
      start. */
  lemma BackfillStop(g: Goal, today: Day, i: nat)
    requires i <= SpanLength(g.startDate, Min(today, g.deadline))
    requires i > 0 ==> g.startDate + i - 1 < today
    requires i == SpanLength(g.startDate, Min(today, g.deadline)) || g.startDate + i >= today
    ensures g.startDate + i - 1 == LastMissedDay(g, today)
      || (i == 0 && LastMissedDay(g, today) < g.startDate)
  {
  }

  /** The three stores: `goals` (the current goal), `history` (one record per
      day) and `meta` (the streak and the earned badges). */
  class GoalTracker {
    var goal: Option<Goal>
    var history: map<Day, DailyRecord>
    var streak: nat
    var badges: seq<Badge>

    ghost predicate Valid()
      reads this`goal, this`badges
    {
      NoDuplicates(badges) && (goal.Some? ==> ValidGoal(goal.value))
    }

    /** Empty stores, as on first launch. */
    constructor ()
      ensures Valid()
      ensures goal == None && history == map[] && streak == 0 && badges == []
    {
      goal := None;
      history := map[];
      streak := 0;
      badges := [];
    }

    /** `awardBadge`: append `id` to the earned list unless already there. */
    method AwardBadge(id: Badge)
      requires Valid()
      modifies this`badges
      ensures Valid()
      ensures badges == Awarded(old(badges), id)
    {
      if id !in badges {
        badges := badges + [id];
      }
    }

    /** `ensureMissedDaysMarked`: walk the days from the goal's start to the
        earlier of today and the deadline, stop at today, and store an
        untouched record for each day that has none. */
    method EnsureMissedDaysMarked(g: Goal, today: Day)
      requires Valid()
      modifies this`history
      ensures Valid()
      ensures history == Backfilled(old(history), g, today)
    {
      var byDate := history;
      var all := DatesBetween(g.startDate, Min(today, g.deadline));
      var i := 0;
      while i < |all|
        invariant 0 <= i <= |all|
        invariant i > 0 ==> g.startDate + i - 1 < today
        invariant forall d :: d in history <==> d in byDate || g.startDate <= d < g.startDate + i
        invariant forall d :: d in byDate ==> d in history && history[d] == byDate[d]
        invariant forall d :: d in history && d !in byDate ==> history[d] == Untouched(|g.tasks|)
      {
        var d := all[i];
        if d >= today {
          break;
        }
        if d !in byDate {
          history := history[d := Untouched(|g.tasks|)];
        }
        i := i + 1;
      }
      BackfillStop(g, today, i);
      FilledThroughUnique(byDate, g, LastMissedDay(g, today), history);
    }

    /** `updateStreak`: store the length of the run of done days ending today
        (or yesterday when today is not done) and award STREAK_7, or else
        STREAK_3, when it is long enough. */
    method UpdateStreak(today: Day)
      requires Valid()
      modifies this`streak, this`badges
      ensures Valid()
      ensures IsRunLength(DoneSet(history), RunEnd(DoneSet(history), today), streak)
      ensures badges == AwardedOpt(old(badges), StreakBadge(streak))
      ensures |badges| <= |old(badges)| + 1
    {
      var count := CountStreak(DoneSet(history), today);
      streak := count;
      if count >= 7 {
        AwardBadge(Streak7);
      } else if count >= 3 {
        AwardBadge(Streak3);
      }
    }

    /** `updateOverall`: compute overall progress and award HALFWAY when at
        least half of the goal's days are done. */
    method UpdateOverall(g: Goal) returns (o: Overall)
      requires Valid()
      modifies this`badges
      ensures Valid()
      ensures o == ComputeOverall(g, history)
      ensures badges == AwardedIf(old(badges), HalfwayReached(o), Halfway)
    {
      o := ComputeOverall(g, history);
      if o.totalDays > 0 && 2 * o.doneDays >= o.totalDays {
        AwardBadge(Halfway);
      }
    }

    /** The metric refresh every handler ends with: `updateOverall` then
        `updateStreak`. */
    method Refresh(g: Goal, today: Day) returns (overall: Overall)
      requires Valid()
      modifies this`streak, this`badges
      ensures Valid()
      ensures overall == ComputeOverall(g, history)
      ensures IsRunLength(DoneSet(history), RunEnd(DoneSet(history), today), streak)
      ensures badges == AwardedOpt(AwardedIf(old(badges), HalfwayReached(overall), Halfway), StreakBadge(streak))
    {
      overall := UpdateOverall(g);
      UpdateStreak(today);
    }

    /** `loadTracking` without its rendering: backfill, make sure today has a
        record, then refresh today's percentage, overall progress and the
        streak. */
    method LoadTracking(g: Goal, today: Day) returns (todayPct: nat, overall: Overall)
      requires Valid()
      modifies this`history, this`streak, this`badges
      ensures Valid()
      ensures history == WithToday(old(history), g, today)
      ensures todayPct == TodayPercent(history[today], g)
      ensures overall == ComputeOverall(g, history)
      ensures IsRunLength(DoneSet(history), RunEnd(DoneSet(history), today), streak)
      ensures badges == AwardedOpt(AwardedIf(old(badges), HalfwayReached(overall), Halfway), StreakBadge(streak))
      ensures AllConsistent(old(history)) && |g.tasks| > 0 ==> AllConsistent(history)
    {
      EnsureMissedDaysMarked(g, today);
      if today !in history {
        history := history[today := Untouched(|g.tasks|)];
      }
      assert history == WithToday(old(history), g, today);
      assert AllConsistent(old(history)) && |g.tasks| > 0 ==> AllConsistent(history);
      todayPct := TodayPercent(history[today], g);
      overall := Refresh(g, today);
    }

    /** The `toggle` closure for task `i` of the record stored under `day`:
        tick or untick it, award FIRST_CHECK on a tick and FIRST_100 when the
        day becomes done, then refresh the metrics. */
    method Toggle(g: Goal, day: Day, i: nat, nowChecked: bool, today: Day) returns (todayPct: nat, overall: Overall)
      requires Valid()
      requires day in history && i < |g.tasks|
      modifies this`history, this`streak, this`badges
      ensures Valid()
      ensures history == old(history)[day := Toggled(old(history)[day], i, nowChecked)]
      ensures todayPct == TodayPercent(history[day], g)
      ensures overall == ComputeOverall(g, history)
      ensures IsRunLength(DoneSet(history), RunEnd(DoneSet(history), today), streak)
      ensures badges == AwardedOpt(AwardedIf(AwardedIf(AwardedIf(old(badges),
        nowChecked, FirstCheck), history[day].allDone, First100), HalfwayReached(overall), Halfway), StreakBadge(streak))
      ensures AllConsistent(old(history)) ==> AllConsistent(history)
    {
      var rec := history[day];
      if nowChecked {
        AwardBadge(FirstCheck);
      }
      rec := Toggled(rec, i, nowChecked);
      history := history[day := rec];
      assert history == old(history)[day := Toggled(old(history)[day], i, nowChecked)];
      assert AllConsistent(old(history)) ==> AllConsistent(history);
      if rec.allDone {
        AwardBadge(First100);
      }
      todayPct := TodayPercent(rec, g);
      overall := Refresh(g, today);
    }

    /** The `markAll` handler for the record stored under `day`: tick every
        task of the goal, award FIRST_100, then refresh the metrics. */
    method MarkAll(g: Goal, day: Day, today: Day) returns (todayPct: nat, overall: Overall)
      requires Valid()
      requires day in history
      modifies this`history, this`streak, this`badges
      ensures Valid()
      ensures history == old(history)[day := MarkedAll(old(history)[day], |g.tasks|)]
      ensures todayPct == TodayPercent(history[day], g)
      ensures overall == ComputeOverall(g, history)
      ensures IsRunLength(DoneSet(history), RunEnd(DoneSet(history), today), streak)
      ensures badges == AwardedOpt(AwardedIf(Awarded(old(badges), First100),
        HalfwayReached(overall), Halfway), StreakBadge(streak))
      ensures AllConsistent(old(history)) && old(history)[day].totalCount == |g.tasks| ==> AllConsistent(history)
    {
      history := history[day := MarkedAll(history[day], |g.tasks|)];
      AwardBadge(First100);
      todayPct := TodayPercent(history[day], g);
      overall := Refresh(g, today);
    }

    /** The save handler of the goal form: validate, and on success start
        tracking the new goal. A refused save writes nothing. */
    method SaveGoal(titleInput: string, tasksInput: string, startInput: Option<Day>,
                    deadlineInput: Option<Day>, today: Day) returns (r: Result<Goal, SaveError>)
      requires Valid()
      modifies this
      ensures Valid()
      ensures r == ValidateGoal(titleInput, tasksInput, startInput, deadlineInput, today)
      ensures r.Failure? ==>
        goal == old(goal) && history == old(history) && streak == old(streak) && badges == old(badges)
      ensures r.Success? ==> goal == Some(r.value)
      ensures r.Success? ==> history == Backfilled(AlignToday(old(history), today, |r.value.tasks|), r.value, today)
      ensures r.Success? ==> IsRunLength(DoneSet(history), RunEnd(DoneSet(history), today), streak)
      ensures r.Success? ==> badges == AwardedOpt(AwardedIf(old(badges),
        HalfwayReached(ComputeOverall(r.value, history)), Halfway), StreakBadge(streak))
      ensures AllConsistent(old(history)) ==> AllConsistent(history)
    {
      r := ValidateGoal(titleInput, tasksInput, startInput, deadlineInput, today);
      if r.Failure? {
        return;
      }
      StartGoal(r.value, today);
    }

    /** What the save handler does with a valid goal: store it, replace
        today's record when it is missing or sized for another task count,
        refresh the metrics, then open the tracking view (which backfills
        and refreshes them again). */
    method StartGoal(g: Goal, today: Day)
      requires Valid() && ValidGoal(g)
      modifies this
      ensures Valid()
      ensures goal == Some(g)
      ensures history == Backfilled(AlignToday(old(history), today, |g.tasks|), g, today)
      ensures IsRunLength(DoneSet(history), RunEnd(DoneSet(history), today), streak)
      ensures badges == AwardedOpt(AwardedIf(old(badges),
        HalfwayReached(ComputeOverall(g, history)), Halfway), StreakBadge(streak))
      ensures AllConsistent(old(history)) ==> AllConsistent(history)
    {
      goal := Some(g);
      AlignTodayRecord(g, today);
      ghost var aligned := history;
      var first := UpdateOverall(g);
      UpdateStreak(today);
      ghost var firstStreak := streak;
      var todayPct, overall := LoadTracking(g, today);
      assert today in Backfilled(aligned, g, today);
      assert history == Backfilled(aligned, g, today);
      BackfillKeepsDoneDays(aligned, g, today);
      OverallOfDoneSet(aligned, history, g);
      RunLengthUnique(DoneSet(history), RunEnd(DoneSet(history), today), firstStreak, streak);
      AwardedTwice(old(badges), HalfwayReached(first), Halfway, StreakBadge(streak));
    }

    /** The save handler's reset of today's record: an untouched record sized
        for the goal replaces a missing one or one sized for another task
        count. */
    method AlignTodayRecord(g: Goal, today: Day)
      requires g.tasks != []
      modifies this`history
      ensures history == AlignToday(old(history), today, |g.tasks|)
      ensures AllConsistent(old(history)) ==> AllConsistent(history)
    {
      if today !in history || history[today].totalCount != |g.tasks| {
        history := history[today := Untouched(|g.tasks|)];
      }
    }
  }
}
