/** Schedule entries and the counting vocabulary every schedule theorem is stated in. */
module Schedule {
  import opened Prelude

  /** The placeholder team ID: the bye seat of an odd league, or an unassigned slot. */
  const BYE := 0

  /** One match slot. Dates are day numbers; `None` stands for the empty date string. */
  datatype ScheduleEntry = ScheduleEntry(home: int, away: int, week: int, date: Option<int>)

  /** Team IDs as the database hands them out: distinct and never the bye marker. */
  ghost predicate ValidIDs(teamIDs: seq<int>) {
    Distinct(teamIDs) && BYE !in teamIDs
  }

  predicate Involves(e: ScheduleEntry, team: int) {
    e.home == team || e.away == team
  }

  // ---- Counting entries ------------------------------------------------------------

  ghost function Count(es: seq<ScheduleEntry>, p: ScheduleEntry -> bool): nat {
    if es == [] then 0
    else Count(es[..|es| - 1], p) + if p(es[|es| - 1]) then 1 else 0
  }

  ghost function MeetingOf(a: int, b: int): ScheduleEntry -> bool {
    (e: ScheduleEntry) => (e.home == a && e.away == b) || (e.home == b && e.away == a)
  }

  ghost function HostingOf(host: int, guest: int): ScheduleEntry -> bool {
    (e: ScheduleEntry) => e.home == host && e.away == guest
  }

  ghost function PlayingIn(week: int, team: int): ScheduleEntry -> bool {
    (e: ScheduleEntry) => e.week == week && Involves(e, team)
  }

  ghost function FixtureIn(host: int, guest: int, week: int): ScheduleEntry -> bool {
    (e: ScheduleEntry) => e.home == host && e.away == guest && e.week == week
  }

  /** How often two teams meet, whoever is at home. */
  ghost function Meetings(es: seq<ScheduleEntry>, a: int, b: int): nat {
    Count(es, MeetingOf(a, b))
  }

  /** How often `host` receives `guest`. */
  ghost function Hostings(es: seq<ScheduleEntry>, host: int, guest: int): nat {
    Count(es, HostingOf(host, guest))
  }

  /** How many matches a team has in a week. */
  ghost function Plays(es: seq<ScheduleEntry>, week: int, team: int): nat {
    Count(es, PlayingIn(week, team))
  }

  /** How often a fixture stands in a week. */
  ghost function Fixtures(es: seq<ScheduleEntry>, host: int, guest: int, week: int): nat {
    Count(es, FixtureIn(host, guest, week))
  }

  /** The weeks a schedule uses. */
  function Weeks(es: seq<ScheduleEntry>): set<int> {
    set i | 0 <= i < |es| :: es[i].week
  }

  /** No team has two matches in one week. */
  ghost predicate IsWeeklyMatching(es: seq<ScheduleEntry>) {
    forall week, team {:trigger Plays(es, week, team)} :: team != BYE ==> Plays(es, week, team) <= 1
  }

  ghost predicate WeeksAscend(es: seq<ScheduleEntry>) {
    forall i, j :: 0 <= i < j < |es| ==> es[i].week <= es[j].week
  }

  lemma {:induction false} CountConcat(xs: seq<ScheduleEntry>, ys: seq<ScheduleEntry>, p: ScheduleEntry -> bool)
    ensures Count(xs + ys, p) == Count(xs, p) + Count(ys, p)
  {
    if ys == [] {
      assert xs + ys == xs;
    } else {
      assert (xs + ys)[..|xs + ys| - 1] == xs + ys[..|ys| - 1];
      CountConcat(xs, ys[..|ys| - 1], p);
    }
  }

  lemma CountSingle(e: ScheduleEntry, p: ScheduleEntry -> bool)
    ensures Count([e], p) == if p(e) then 1 else 0
  {
    assert [e][..0] == [];
  }

  /** Entry-by-entry translation: if q says of ys[i] what p says of xs[i], the counts agree. */
  lemma {:induction false} CountTranslate(xs: seq<ScheduleEntry>, p: ScheduleEntry -> bool,
                                          ys: seq<ScheduleEntry>, q: ScheduleEntry -> bool)
    requires |xs| == |ys|
    requires forall i :: 0 <= i < |xs| ==> p(xs[i]) == q(ys[i])
    ensures Count(xs, p) == Count(ys, q)
  {
    if xs != [] {
      CountTranslate(xs[..|xs| - 1], p, ys[..|ys| - 1], q);
    }
  }

  lemma {:induction false} CountZero(es: seq<ScheduleEntry>, p: ScheduleEntry -> bool)
    ensures Count(es, p) == 0 <==> forall i :: 0 <= i < |es| ==> !p(es[i])
  {
    if es != [] {
      CountZero(es[..|es| - 1], p);
    }
  }

  /** Splitting a predicate into two exclusive ones splits the count. */
  lemma {:induction false} CountSplit(es: seq<ScheduleEntry>, p: ScheduleEntry -> bool,
                                      q: ScheduleEntry -> bool, r: ScheduleEntry -> bool)
    requires forall e :: p(e) <==> q(e) || r(e)
    requires forall e :: !(q(e) && r(e))
    ensures Count(es, p) == Count(es, q) + Count(es, r)
  {
    if es != [] {
      CountSplit(es[..|es| - 1], p, q, r);
    }
  }

  // ---- maxWeekNum ------------------------------------------------------------------

  /** The largest week number, or 0 when there is none above it. */
  function MaxWeek(es: seq<ScheduleEntry>): (max: int)
    ensures 0 <= max
    ensures forall i :: 0 <= i < |es| ==> es[i].week <= max
    ensures max == 0 || exists i :: 0 <= i < |es| && es[i].week == max
  {
    if es == [] then 0
    else
      var init, last := es[..|es| - 1], es[|es| - 1];
      assert forall i :: 0 <= i < |es| ==> es[i] == if i < |init| then init[i] else last;
      Max(MaxWeek(init), last.week)
  }

  method MaxWeekNum(entries: seq<ScheduleEntry>) returns (max: int)
    ensures max == MaxWeek(entries)
  {
    max := 0;
    for k := 0 to |entries|
      invariant max == MaxWeek(entries[..k])
    {
      assert entries[..k + 1][..k] == entries[..k];
      if entries[k].week > max {
        max := entries[k].week;
      }
    }
    assert entries[..|entries|] == entries;
  }
}
