/** The metrics the tracking view shows: today's percentage, overall
    progress with the HALFWAY rule, and the streak with its badges. */
module Progress {

  import opened Wrappers
  import opened Dates
  import opened Records
  import opened Badges

  function Max1(n: nat): nat {
    if n < 1 then 1 else n
  }

  /** `Math.round(part / Math.max(1, whole) * 100)` on exact rationals:
      the integer nearest to the percentage, halves rounded up. */
  function RoundedPercent(part: nat, whole: nat): nat
  {
    Quotient(200 * part + Max1(whole), 2 * Max1(whole))
  }

  /** Integer division of `x` by a positive `y`, as repeated subtraction:
      the largest `q` with `y * q <= x`. */
  function Quotient(x: nat, y: nat): nat
    requires y > 0
    decreases x
  {
    if x < y then 0 else 1 + Quotient(x - y, y)
  }

  lemma {:induction false} QuotientBounds(x: nat, y: nat)
    requires y > 0
    ensures y * Quotient(x, y) <= x < y * Quotient(x, y) + y
    decreases x
  {
    if x >= y {
      QuotientBounds(x - y, y);
      assert y * Quotient(x, y) == y + y * Quotient(x - y, y);
    }
  }

  /** The rounded percentage is the integer nearest to `100 * part / m`,
      where `m` is the whole or 1 when the whole is 0; halves round up. */
  lemma RoundedPercentNearest(part: nat, whole: nat)
    ensures var m := Max1(whole); var pct := RoundedPercent(part, whole);
      2 * m * pct <= 200 * part + m < 2 * m * pct + 2 * m
  {
    QuotientBounds(200 * part + Max1(whole), 2 * Max1(whole));
  }

  /** A part no larger than the whole rounds to at most 100%, the whole
      itself to exactly 100%, and nothing to 0%. */
  lemma RoundedPercentRange(part: nat, whole: nat)
    ensures var pct := RoundedPercent(part, whole);
      && (part <= whole ==> pct <= 100)
      && (part == whole && whole > 0 ==> pct == 100)
      && (part == 0 ==> pct == 0)
  {
    var m, pct := Max1(whole), RoundedPercent(part, whole);
    RoundedPercentNearest(part, whole);
    if part <= whole && pct > 100 {
      MulMono(2 * m, 101, pct);
      assert false;
    }
    if part == whole && whole > 0 && pct < 100 {
      MulMono(2 * m, pct, 99);
      assert false;
    }
  }

  lemma MulMono(m: nat, a: int, b: int)
    requires a <= b
    ensures m * a <= m * b
  {
  }

  /** Rounding is monotone in the part. */
  lemma RoundedPercentMonotone(a: nat, b: nat, whole: nat)
    requires a <= b
    ensures RoundedPercent(a, whole) <= RoundedPercent(b, whole)
  {
    var m := Max1(whole);
    var pa, pb := RoundedPercent(a, whole), RoundedPercent(b, whole);
    RoundedPercentNearest(a, whole);
    RoundedPercentNearest(b, whole);
    if pa > pb {
      MulMono(2 * m, pb + 1, pa);
      assert false;
    }
  }

  /** `updateTodayProgress`: ticked tasks over the goal's task count (not
      the record's `totalCount`), as a rounded percentage. */
  function TodayPercent(rec: DailyRecord, g: Goal): (pct: nat)
    ensures rec.completedCount <= |g.tasks| ==> pct <= 100
    ensures rec.completedCount == |g.tasks| > 0 ==> pct == 100
    ensures rec.completedCount == 0 ==> pct == 0
  {
    RoundedPercentRange(rec.completedCount, |g.tasks|);
    RoundedPercent(rec.completedCount, |g.tasks|)
  }

  datatype Overall = Overall(totalDays: nat, doneDays: nat, pct: nat)

  /** The done days that fall within the goal's range. */
  function DoneInRange(h: map<Day, DailyRecord>, g: Goal): set<Day>
  {
    set d | d in h && h[d].allDone && g.startDate <= d <= g.deadline
  }

  /** The done days in range depend only on which days are done. */
  lemma DoneInRangeOfDoneSet(h1: map<Day, DailyRecord>, h2: map<Day, DailyRecord>, g: Goal)
    requires DoneSet(h1) == DoneSet(h2)
    ensures DoneInRange(h1, g) == DoneInRange(h2, g)
  {
    forall d ensures d in DoneInRange(h1, g) <==> d in DoneInRange(h2, g) {
      assert d in DoneSet(h1) <==> d in DoneSet(h2);
    }
  }

  /** The done days in range are among the days of the range. */
  lemma DoneInRangeSize(h: map<Day, DailyRecord>, g: Goal)
    ensures |DoneInRange(h, g)| <= SpanLength(g.startDate, g.deadline)
  {
    DaySetSize(g.startDate, g.deadline);
    SubsetSize(DoneInRange(h, g), DaySet(g.startDate, g.deadline));
  }

  /** `computeOverall`: the days of the goal's range, the done days among
      them, and the rounded percentage of the two. */
  function ComputeOverall(g: Goal, h: map<Day, DailyRecord>): (o: Overall)
    ensures o.totalDays == SpanLength(g.startDate, g.deadline)
    ensures o.doneDays <= o.totalDays
    ensures o.pct <= 100
  {
    var total := SpanLength(g.startDate, g.deadline);
    var done := |DoneInRange(h, g)|;
    DoneInRangeSize(h, g);
    RoundedPercentRange(done, total);
    Overall(total, done, RoundedPercent(done, total))
  }

  /** Overall progress depends only on which days are done. */
  lemma OverallOfDoneSet(h1: map<Day, DailyRecord>, h2: map<Day, DailyRecord>, g: Goal)
    requires DoneSet(h1) == DoneSet(h2)
    ensures ComputeOverall(g, h1) == ComputeOverall(g, h2)
  {
    DoneInRangeOfDoneSet(h1, h2, g);
  }

  /** The HALFWAY rule of `updateOverall`: at least half of a non-empty
      range is done (`doneDays / totalDays >= 0.5`, stated without
      division). */
  predicate HalfwayReached(o: Overall) {
    o.totalDays > 0 && 2 * o.doneDays >= o.totalDays
  }

  /** HALFWAY lies between the displayed 50% and 51%: reaching it shows at
      least 50%, and showing more than 50% means it is reached. A display of
      exactly 50% can come from just under half (99 of 200 days). */
  lemma HalfwayAndPercent(g: Goal, h: map<Day, DailyRecord>)
    ensures var o := ComputeOverall(g, h);
      && (HalfwayReached(o) ==> o.pct >= 50)
      && (o.pct > 50 ==> HalfwayReached(o))
  {
    var o := ComputeOverall(g, h);
    var m := Max1(o.totalDays);
    RoundedPercentNearest(o.doneDays, o.totalDays);
    if HalfwayReached(o) && o.pct < 50 {
      MulMono(2 * m, o.pct, 49);
      assert false;
    }
    if o.pct > 50 && !HalfwayReached(o) {
      MulMono(2 * m, 51, o.pct);
      assert false;
    }
  }

  /** More done days never lower overall progress. */
  lemma OverallMonotone(g: Goal, h1: map<Day, DailyRecord>, h2: map<Day, DailyRecord>)
    requires DoneSet(h1) <= DoneSet(h2)
    ensures ComputeOverall(g, h1).doneDays <= ComputeOverall(g, h2).doneDays
    ensures ComputeOverall(g, h1).pct <= ComputeOverall(g, h2).pct
  {
    var d1, d2 := DoneInRange(h1, g), DoneInRange(h2, g);
    forall d | d in d1
      ensures d in d2
    {
      assert d in DoneSet(h1);
    }
    SubsetSize(d1, d2);
    RoundedPercentMonotone(|d1|, |d2|, SpanLength(g.startDate, g.deadline));
  }

  /** A goal of 200 days with 99 of them done displays 50% without meeting
      HALFWAY's condition. */
  lemma JustUnderHalfShowsFifty(g: Goal, h: map<Day, DailyRecord>)
    requires g.deadline == g.startDate + 199
    requires |DoneInRange(h, g)| == 99
    ensures ComputeOverall(g, h).totalDays == 200
    ensures ComputeOverall(g, h).pct == 50
    ensures !HalfwayReached(ComputeOverall(g, h))
  {
    RoundedPercentNearest(99, 200);
  }

  /** Where the streak run ends: today when today is done, else yesterday. */
  function RunEnd(done: set<Day>, today: Day): Day {
    if today in done then today else today - 1
  }

  /** `count` is the length of the maximal run of done days ending at `end`:
      the `count` days up to `end` are done and the day before them is not. */
  predicate IsRunLength(done: set<Day>, end: Day, count: nat) {
    (forall d :: end - count < d <= end ==> d in done) && end - count !in done
  }

  /** The run length at a given end is unique. */
  lemma RunLengthUnique(done: set<Day>, end: Day, c1: nat, c2: nat)
    requires IsRunLength(done, end, c1) && IsRunLength(done, end, c2)
    ensures c1 == c2
  {
  }

  /** The counting loop of `updateStreak`: walk back from the run's end while
      the day is done. */
  method CountStreak(done: set<Day>, today: Day) returns (count: nat)
    ensures IsRunLength(done, RunEnd(done, today), count)
  {
    var d := today;
    if today !in done {
      d := d - 1;
    }
    count := 0;
    while d in done
      invariant d == RunEnd(done, today) - count
      invariant DaySet(d + 1, RunEnd(done, today)) <= done
      invariant count <= |done|
      decreases |done| - count
    {
      DaySetSize(d, RunEnd(done, today));
      SubsetSize(DaySet(d, RunEnd(done, today)), done);
      count := count + 1;
      d := d - 1;
    }
  }

  /** The streak badge `updateStreak` awards for a count: STREAK_7 from seven
      days, STREAK_3 from three to six, none below three. */
  function StreakBadge(count: nat): (b: Option<Badge>)
    ensures b == Some(Streak7) <==> count >= 7
    ensures b == Some(Streak3) <==> 3 <= count < 7
    ensures b == None <==> count < 3
  {
    if count >= 7 then Some(Streak7)
    else if count >= 3 then Some(Streak3)
    else None
  }

  /** Seven done days ending today, with the eighth day back not done: any
      count `updateStreak` can arrive at is seven, and that call awards
      STREAK_7 and adds no STREAK_3. */
  lemma SevenDayStreak(h: map<Day, DailyRecord>, today: Day, count: nat, earned: seq<Badge>)
    requires forall d :: today - 7 < d <= today ==> d in h && h[d].allDone
    requires today - 7 !in h || !h[today - 7].allDone
    requires IsRunLength(DoneSet(h), RunEnd(DoneSet(h), today), count)
    ensures count == 7
    ensures StreakBadge(count) == Some(Streak7)
    ensures Streak3 in AwardedOpt(earned, StreakBadge(count)) <==> Streak3 in earned
  {
    var done := DoneSet(h);
    assert today in done;
    assert IsRunLength(done, today, 7);
    RunLengthUnique(done, today, count, 7);
  }
}
