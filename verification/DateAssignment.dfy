/**
 Calendar dates for week numbers: seven days apart from the start date, stepping over skipped
 dates. Dates are day numbers.
 */
module DateAssignment {
  import opened Prelude
  import opened Schedule

  /** The dates still ahead that are to be skipped: what makes the search for a date end. */
  ghost function SkipsFrom(skips: set<int>, date: int): set<int> {
    set d | d in skips && d >= date
  }

  /** The first step at or after k whose date is not skipped. */
  ghost function NextPlayable(start: int, skips: set<int>, k: nat): (next: nat)
    ensures k <= next && start + 7 * next !in skips
    ensures forall j :: k <= j < next ==> start + 7 * j in skips
    decreases SkipsFrom(skips, start + 7 * k)
  {
    if start + 7 * k in skips then
      assert start + 7 * k !in SkipsFrom(skips, start + 7 * (k + 1));
      assert SkipsFrom(skips, start + 7 * (k + 1)) < SkipsFrom(skips, start + 7 * k);
      NextPlayable(start, skips, k + 1)
    else k
  }

  /** How many steps after the start date week w is played, for w >= 1. */
  ghost function WeekStep(start: int, skips: set<int>, week: nat): nat
    requires week >= 1
  {
    NextPlayable(start, skips, if week == 1 then 0 else WeekStep(start, skips, week - 1) + 1)
  }

  ghost function WeekDate(start: int, skips: set<int>, week: nat): int
    requires week >= 1
  {
    start + 7 * WeekStep(start, skips, week)
  }

  /** How many of the first k candidate dates are not skipped. */
  ghost function PlayableBefore(start: int, skips: set<int>, k: nat): nat {
    if k == 0 then 0
    else PlayableBefore(start, skips, k - 1) + if start + 7 * (k - 1) in skips then 0 else 1
  }

  // ---- What the dates mean ---------------------------------------------------------

  lemma {:induction false} PlayableGap(start: int, skips: set<int>, k: nat, next: nat)
    requires k <= next && forall j :: k <= j < next ==> start + 7 * j in skips
    ensures PlayableBefore(start, skips, next) == PlayableBefore(start, skips, k)
  {
    if k < next {
      PlayableGap(start, skips, k, next - 1);
      assert start + 7 * (next - 1) in skips;
    }
  }

  /** Week w falls on a date that is not skipped and has exactly w - 1 playable dates before it. */
  lemma {:induction false} WeekIsNthPlayable(start: int, skips: set<int>, week: nat)
    requires week >= 1
    ensures WeekDate(start, skips, week) !in skips
    ensures PlayableBefore(start, skips, WeekStep(start, skips, week)) == week - 1
  {
    if week == 1 {
      PlayableGap(start, skips, 0, WeekStep(start, skips, 1));
    } else {
      WeekIsNthPlayable(start, skips, week - 1);
      PlayableGap(start, skips, WeekStep(start, skips, week - 1) + 1, WeekStep(start, skips, week));
    }
  }

  lemma {:induction false} PlayableBeforeMonotone(start: int, skips: set<int>, j: nat, k: nat)
    requires j <= k
    ensures PlayableBefore(start, skips, j) <= PlayableBefore(start, skips, k)
    ensures j < k && start + 7 * j !in skips ==> PlayableBefore(start, skips, j) < PlayableBefore(start, skips, k)
  {
    if j < k {
      PlayableBeforeMonotone(start, skips, j, k - 1);
    }
  }

  /** Conversely, a candidate date that is not skipped is the date of one week and no other. */
  lemma EveryPlayableDateIsUsed(start: int, skips: set<int>, k: nat, week: nat)
    requires week >= 1 && start + 7 * k !in skips
    ensures WeekDate(start, skips, week) == start + 7 * k <==> week == PlayableBefore(start, skips, k) + 1
  {
    WeekIsNthPlayable(start, skips, week);
    var s := WeekStep(start, skips, week);
    if s < k {
      PlayableBeforeMonotone(start, skips, s, k);
    } else if k < s {
      PlayableBeforeMonotone(start, skips, k, s);
    }
  }

  /** Later weeks fall on later dates, whole weeks apart. */
  lemma {:induction false} DatesAscend(start: int, skips: set<int>, v: nat, w: nat)
    requires 1 <= v < w
    ensures WeekDate(start, skips, v) < WeekDate(start, skips, w)
    ensures (WeekDate(start, skips, w) - WeekDate(start, skips, v)) % 7 == 0
  {
    if v < w - 1 {
      DatesAscend(start, skips, v, w - 1);
    }
  }

  /** Without skipped dates the weeks are seven days apart. */
  lemma {:induction false} UnskippedWeeks(start: int, skips: set<int>, week: nat)
    requires week >= 1 && forall d :: d in skips ==> d < start || d > start + 7 * (week - 1)
    ensures WeekDate(start, skips, week) == start + 7 * (week - 1)
  {
    if week > 1 {
      UnskippedWeeks(start, skips, week - 1);
    }
  }

  // ---- The date half of assignDates --------------------------------------------------

  /** Every entry with the date of its week; week numbers below 1 get none. */
  ghost function Dated(entries: seq<ScheduleEntry>, start: int, skips: set<int>): seq<ScheduleEntry> {
    seq(|entries|, i requires 0 <= i < |entries| =>
      var e := entries[i];
      e.(date := if e.week >= 1 then Some(WeekDate(start, skips, e.week)) else None))
  }

  lemma StepOver(start: int, skips: set<int>, k: nat)
    ensures start + 7 * k !in skips ==> NextPlayable(start, skips, k) == k
    ensures start + 7 * k in skips ==>
              && NextPlayable(start, skips, k) == NextPlayable(start, skips, k + 1)
              && SkipsFrom(skips, start + 7 * k + 7) < SkipsFrom(skips, start + 7 * k)
  {
    if start + 7 * k in skips {
      assert start + 7 * k in SkipsFrom(skips, start + 7 * k);
      assert start + 7 * k !in SkipsFrom(skips, start + 7 * k + 7);
    }
  }

  /** Where the search for a week's date begins. */
  ghost function SearchFrom(start: int, skips: set<int>, week: nat): nat
    requires week >= 1
  {
    if week == 1 then 0 else WeekStep(start, skips, week - 1) + 1
  }

  method WeekDates(start: int, skips: set<int>, totalWeeks: int) returns (weekDates: map<int, int>)
    requires totalWeeks >= 0
    ensures forall w :: w in weekDates <==> 1 <= w <= totalWeeks
    ensures forall w: nat {:trigger weekDates[w]} :: 1 <= w <= totalWeeks ==> weekDates[w] == WeekDate(start, skips, w)
  {
    hide NextPlayable, WeekStep, SkipsFrom, SearchFrom;
    weekDates := map[];
    var week := 1;
    var cur := start;
    ghost var step := 0; // cur is `step` weeks after the start
    StartOfSearch(start, skips);
    while week <= totalWeeks
      invariant 1 <= week <= totalWeeks + 1
      invariant cur == start + 7 * step && 0 <= step
      invariant NextPlayable(start, skips, SearchFrom(start, skips, week)) == NextPlayable(start, skips, step)
      invariant forall w :: w in weekDates <==> 1 <= w < week
      invariant forall w: nat {:trigger weekDates[w]} :: 1 <= w < week ==> weekDates[w] == WeekDate(start, skips, w)
      decreases totalWeeks - week, SkipsFrom(skips, cur)
    {
      StepOver(start, skips, step);
      if cur !in skips {
        SearchContinues(start, skips, week);
        weekDates := weekDates[week := cur];
        week := week + 1;
      }
      cur := cur + 7;
      step := step + 1;
    }
  }

  lemma StartOfSearch(start: int, skips: set<int>)
    ensures SearchFrom(start, skips, 1) == 0
  {
  }

  lemma SearchContinues(start: int, skips: set<int>, week: nat)
    requires week >= 1
    ensures WeekStep(start, skips, week) == NextPlayable(start, skips, SearchFrom(start, skips, week))
    ensures SearchFrom(start, skips, week + 1) == WeekStep(start, skips, week) + 1
  {
  }

  method SkipSet(skipDates: seq<int>) returns (skipSet: set<int>)
    ensures skipSet == set d | d in skipDates
  {
    skipSet := {};
    for k := 0 to |skipDates|
      invariant skipSet == set d | d in skipDates[..k]
    {
      skipSet := skipSet + {skipDates[k]};
    }
    assert skipDates[..|skipDates|] == skipDates;
  }

  method AssignCalendar(entries: seq<ScheduleEntry>, start: int, skipDates: seq<int>)
    returns (result: seq<ScheduleEntry>)
    ensures result == Dated(entries, start, set d | d in skipDates)
  {
    hide WeekDate, MaxWeek;
    var skipSet := SkipSet(skipDates);
    var totalWeeks := MaxWeekNum(entries);
    var weekDates := WeekDates(start, skipSet, totalWeeks);
    result := [];
    for i := 0 to |entries|
      invariant |result| == i && forall j :: 0 <= j < i ==> result[j] == Dated(entries, start, skipSet)[j]
    {
      var e := entries[i];
      var date := if e.week in weekDates then Some(weekDates[e.week]) else None;
      result := result + [e.(date := date)];
    }
  }
}
