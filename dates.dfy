/** Calendar days and the day-range enumeration of the progress logic.

    A day is an integer: consecutive calendar days differ by one, and the
    numeric order of two days agrees with the order of their `YYYY-MM-DD`
    keys. */
module Dates {

  type Day = int

  function Min(a: Day, b: Day): Day {
    if a <= b then a else b
  }

  /** The number of days from `s` to `e` inclusive; zero when `s` is after `e`. */
  function SpanLength(s: Day, e: Day): nat {
    if s <= e then e - s + 1 else 0
  }

  /** Every day from `s` to `e` inclusive, in calendar order. */
  function DayRange(s: Day, e: Day): (r: seq<Day>)
    ensures |r| == SpanLength(s, e)
    ensures forall k :: 0 <= k < |r| ==> r[k] == s + k
    decreases SpanLength(s, e)
  {
    if s > e then [] else [s] + DayRange(s + 1, e)
  }

  /** A day occurs in the range exactly when it lies between its ends. */
  lemma DayRangeMembers(s: Day, e: Day, d: Day)
    ensures d in DayRange(s, e) <==> s <= d <= e
  {
    var r := DayRange(s, e);
    if s <= d <= e {
      assert r[d - s] == d;
    }
  }

  /** The range is strictly ascending, one day at a time. */
  lemma DayRangeConsecutive(s: Day, e: Day, k: nat)
    requires 0 < k < SpanLength(s, e)
    ensures DayRange(s, e)[k] == DayRange(s, e)[k - 1] + 1
  {
  }

  /** `datesBetween`: starts at `s` and appends one day at a time while the
      current day is not after `e`. */
  method DatesBetween(s: Day, e: Day) returns (out: seq<Day>)
    ensures out == DayRange(s, e)
    ensures |out| == SpanLength(s, e)
    ensures forall k :: 0 < k < |out| ==> out[k] == out[k - 1] + 1
  {
    out := [];
    var d := s;
    while d <= e
      invariant d == s + |out|
      invariant s <= e ==> d <= e + 1
      invariant s > e ==> out == []
      invariant forall k :: 0 <= k < |out| ==> out[k] == s + k
      decreases e - d
    {
      out := out + [d];
      d := d + 1;
    }
  }

  /** The set of days from `s` to `e` inclusive. */
  function DaySet(s: Day, e: Day): (r: set<Day>)
    ensures forall d :: d in r <==> s <= d <= e
  {
    forall d | s <= d <= e ensures d in DayRange(s, e) {
      DayRangeMembers(s, e, d);
    }
    set d | d in DayRange(s, e)
  }

  lemma {:induction false} DaySetSize(s: Day, e: Day)
    ensures |DaySet(s, e)| == SpanLength(s, e)
    decreases SpanLength(s, e)
  {
    if s <= e {
      DaySetSize(s + 1, e);
      assert DaySet(s, e) == {s} + DaySet(s + 1, e);
    } else {
      assert DaySet(s, e) == {};
    }
  }

  /** A subset is no larger than the set it sits in. */
  lemma {:induction false} SubsetSize<T>(a: set<T>, b: set<T>)
    requires a <= b
    ensures |a| <= |b|
    decreases a
  {
    if a != {} {
      var x :| x in a;
      SubsetSize(a - {x}, b - {x});
    }
  }
}
