/** The badge catalogue and the append-only list of earned badges kept in
    the `badges` entry of the meta store. */
module Badges {

  import opened Wrappers

  datatype Badge = FirstCheck | First100 | Streak3 | Streak7 | Halfway | GoalDone

  /** No badge occurs twice in the earned list. */
  predicate NoDuplicates(earned: seq<Badge>) {
    forall i, j :: 0 <= i < j < |earned| ==> earned[i] != earned[j]
  }

  /** The earned list after `awardBadge(id)`: `id` is appended unless it is
      already there. */
  function Awarded(earned: seq<Badge>, id: Badge): (r: seq<Badge>)
    ensures id in r
    ensures earned <= r
    ensures |r| == if id in earned then |earned| else |earned| + 1
    ensures forall b :: b in r <==> b in earned || b == id
    ensures NoDuplicates(earned) ==> NoDuplicates(r)
  {
    if id in earned then earned else earned + [id]
  }

  /** Awarding a badge twice leaves the same list as awarding it once. */
  lemma AwardedIdempotent(earned: seq<Badge>, id: Badge)
    ensures Awarded(Awarded(earned, id), id) == Awarded(earned, id)
  {
  }

  /** The earned list after awarding `id` when `cond` holds. */
  function AwardedIf(earned: seq<Badge>, cond: bool, id: Badge): (r: seq<Badge>)
    ensures earned <= r
    ensures forall b :: b in r <==> b in earned || (cond && b == id)
    ensures NoDuplicates(earned) ==> NoDuplicates(r)
  {
    if cond then Awarded(earned, id) else earned
  }

  /** The earned list after awarding the badge `id` holds, if any. */
  function AwardedOpt(earned: seq<Badge>, id: Option<Badge>): (r: seq<Badge>)
    ensures earned <= r
    ensures forall b :: b in r <==> b in earned || id == Some(b)
    ensures |r| <= |earned| + 1
    ensures NoDuplicates(earned) ==> NoDuplicates(r)
  {
    match id
    case Some(b) => Awarded(earned, b)
    case None => earned
  }

  /** Awarding a conditional badge and then an optional one, a second time
      with the same condition and badge, changes nothing. */
  lemma AwardedTwice(earned: seq<Badge>, cond: bool, id: Badge, other: Option<Badge>)
    ensures var once := AwardedOpt(AwardedIf(earned, cond, id), other);
      AwardedOpt(AwardedIf(once, cond, id), other) == once
  {
  }
}
