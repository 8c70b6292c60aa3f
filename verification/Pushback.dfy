/**
 Pushing a season back: every unplayed match from a cutoff week on moves by whole weeks. The
 preview computes what would move; applying writes exactly that, match by match.
 */
module Pushback {
  import opened Prelude
  import opened Ordering

  /** A match on the calendar. Dates are day numbers. */
  datatype Match = Match(season: int, week: int, date: Option<int>, completed: bool, home: int, away: int)

  datatype Season = Season(closed: bool, endDate: Option<int>, stale: bool)

  datatype Calendar = Calendar(matches: map<int, Match>, seasons: map<int, Season>, closedWeeks: set<(int, int)>)

  datatype Request = Request(season: int, cutoff: int, weeks: int)

  datatype PushError = InvalidCutoff | InvalidWeeks | SeasonNotFound | HasClosedWeeks | SeasonClosed | LookupFailed

  datatype Shift = Shift(id: int, week: int, newWeek: int, date: Option<int>, newDate: Option<int>, home: int, away: int)

  datatype Kept = Kept(id: int, week: int, date: Option<int>, home: int, away: int)

  datatype Plan = Plan(shifted: seq<Shift>, preserved: seq<Kept>, newEndDate: Option<int>)

  // ---- What a pushback does ---------------------------------------------------------------

  predicate Moves(m: Match, r: Request) {
    m.season == r.season && m.week >= r.cutoff && !m.completed
  }

  function ShiftDate(date: Option<int>, days: int): Option<int> {
    match date
    case Some(d) => Some(d + days)
    case None => None
  }

  function Moved(m: Match, r: Request): Match {
    if Moves(m, r) then m.(week := m.week + r.weeks, date := ShiftDate(m.date, 7 * r.weeks)) else m
  }

  function MovedMatches(matches: map<int, Match>, r: Request): map<int, Match> {
    map id | id in matches :: Moved(matches[id], r)
  }

  /** The dates a season is played on. */
  predicate PlayedOn(matches: map<int, Match>, season: int, day: int) {
    exists id :: id in matches && matches[id].season == season && matches[id].date == Some(day)
  }

  /** The last day a season is played on, if any match is dated. */
  ghost predicate IsLastDay(matches: map<int, Match>, season: int, last: Option<int>) {
    match last
    case Some(day) => PlayedOn(matches, season, day) && forall d :: PlayedOn(matches, season, d) ==> d <= day
    case None => forall d :: !PlayedOn(matches, season, d)
  }

  predicate ClosedFrom(c: Calendar, season: int, week: int) {
    exists w :: w in c.closedWeeks && w.0 == season && w.1 >= week
  }

  /** The checks of a preview, in order. */
  function PreviewError(c: Calendar, r: Request): Option<PushError> {
    if r.cutoff < 1 then Some(InvalidCutoff)
    else if r.weeks < 1 then Some(InvalidWeeks)
    else if r.season !in c.seasons then Some(SeasonNotFound)
    else if ClosedFrom(c, r.season, r.cutoff) then Some(HasClosedWeeks)
    else None
  }

  /** Applying asks first whether the season is closed, which fails for a season that does not exist. */
  function ApplyError(c: Calendar, r: Request): Option<PushError> {
    if r.season !in c.seasons then Some(LookupFailed)
    else if c.seasons[r.season].closed then Some(SeasonClosed)
    else PreviewError(c, r)
  }

  /** The calendar after a pushback with the given last day. */
  function Pushed(c: Calendar, r: Request, last: Option<int>): Calendar
    requires r.season in c.seasons
  {
    var s := c.seasons[r.season].(stale := false);
    c.(matches := MovedMatches(c.matches, r),
      seasons := c.seasons[r.season := if last.Some? then s.(endDate := last) else s])
  }

  // ---- Rows of a season ------------------------------------------------------------------------

  function Before(matches: map<int, Match>, a: int, b: int): bool
    requires a in matches && b in matches
  {
    matches[a].week < matches[b].week || (matches[a].week == matches[b].week && a < b)
  }

  /** The matches of a season, by week and then by ID. */
  ghost predicate Listed(ids: seq<int>, matches: map<int, Match>, season: int) {
    && (forall i :: 0 <= i < |ids| ==> ids[i] in matches)
    && (forall i, j :: 0 <= i < j < |ids| ==> Before(matches, ids[i], ids[j]))
    && (forall id :: id in ids <==> id in matches && matches[id].season == season)
  }

  function ShiftOf(id: int, m: Match, r: Request): Shift {
    Shift(id, m.week, m.week + r.weeks, m.date, ShiftDate(m.date, 7 * r.weeks), m.home, m.away)
  }

  function ShiftsOf(ids: seq<int>, matches: map<int, Match>, r: Request): seq<Shift>
    requires forall i :: 0 <= i < |ids| ==> ids[i] in matches
  {
    if ids == [] then []
    else
      var n := |ids| - 1;
      var m := matches[ids[n]];
      ShiftsOf(ids[..n], matches, r) + if m.week >= r.cutoff && !m.completed then [ShiftOf(ids[n], m, r)] else []
  }

  function KeptOf(ids: seq<int>, matches: map<int, Match>, r: Request): seq<Kept>
    requires forall i :: 0 <= i < |ids| ==> ids[i] in matches
  {
    if ids == [] then []
    else
      var n := |ids| - 1;
      var m := matches[ids[n]];
      KeptOf(ids[..n], matches, r) +
      if m.week >= r.cutoff && m.completed then [Kept(ids[n], m.week, m.date, m.home, m.away)] else []
  }

  /** A plan shows the moved and the preserved matches in order, and the last day once they have moved. */
  ghost predicate IsPlan(plan: Plan, c: Calendar, r: Request) {
    && (exists ids :: Listed(ids, c.matches, r.season) && plan.shifted == ShiftsOf(ids, c.matches, r)
                      && plan.preserved == KeptOf(ids, c.matches, r))
    && IsLastDay(MovedMatches(c.matches, r), r.season, plan.newEndDate)
  }

  /** The later of two dates, where no date is before every date. */
  function Later(latest: Option<int>, date: Option<int>): Option<int> {
    if date.Some? && (latest.None? || date.value > latest.value) then date else latest
  }

  /** The latest new date among the first n listed matches. */
  ghost predicate LatestSoFar(latest: Option<int>, ids: seq<int>, matches: map<int, Match>, r: Request, n: nat)
    requires n <= |ids| && forall i :: 0 <= i < |ids| ==> ids[i] in matches
  {
    && (latest.Some? ==> exists i :: 0 <= i < n && Moved(matches[ids[i]], r).date == latest)
    && (forall i :: 0 <= i < n && Moved(matches[ids[i]], r).date.Some? ==>
          latest.Some? && Moved(matches[ids[i]], r).date.value <= latest.value)
  }

  lemma LatestStep(latest: Option<int>, ids: seq<int>, matches: map<int, Match>, r: Request, n: nat)
    requires n < |ids| && forall i :: 0 <= i < |ids| ==> ids[i] in matches
    requires LatestSoFar(latest, ids, matches, r, n)
    ensures LatestSoFar(Later(latest, Moved(matches[ids[n]], r).date), ids, matches, r, n + 1)
  {
    hide Moved;
    var next := Later(latest, Moved(matches[ids[n]], r).date);
    if next.Some? {
      var i :| 0 <= i < n + 1 && Moved(matches[ids[i]], r).date == next;
    }
  }

  lemma LatestIsLastDay(latest: Option<int>, ids: seq<int>, matches: map<int, Match>, r: Request)
    requires Listed(ids, matches, r.season) && LatestSoFar(latest, ids, matches, r, |ids|)
    ensures IsLastDay(MovedMatches(matches, r), r.season, latest)
  {
    var moved := MovedMatches(matches, r);
    forall day | PlayedOn(moved, r.season, day)
      ensures latest.Some? && day <= latest.value
    {
      var id :| id in moved && moved[id].season == r.season && moved[id].date == Some(day);
      assert id in ids;
      var i :| 0 <= i < |ids| && ids[i] == id;
      assert Moved(matches[ids[i]], r).date == Some(day);
    }
    if latest.Some? {
      var i :| 0 <= i < |ids| && Moved(matches[ids[i]], r).date == latest;
      var id := ids[i];
      assert id in ids && moved[id].season == r.season && moved[id].date == Some(latest.value);
    }
  }

  // ---- The store and the service -----------------------------------------------------------------

  class PushbackStore {
    var matches: map<int, Match>
    var seasons: map<int, Season>
    var closedWeeks: set<(int, int)>

    constructor (matches: map<int, Match>, seasons: map<int, Season>, closedWeeks: set<(int, int)>)
      ensures State() == Calendar(matches, seasons, closedWeeks)
    {
      this.matches, this.seasons, this.closedWeeks := matches, seasons, closedWeeks;
    }

    function State(): Calendar
      reads this
    {
      Calendar(matches, seasons, closedWeeks)
    }

    method GetPushbackMatches(season: int) returns (ids: seq<int>)
      ensures Listed(ids, matches, season)
    {
      ids := [];
      var remaining := set id | id in matches && matches[id].season == season;
      while remaining != {}
        invariant forall id :: id in remaining ==> id in matches && matches[id].season == season
        invariant forall i :: 0 <= i < |ids| ==> ids[i] in matches
        invariant forall i, j :: 0 <= i < j < |ids| ==> Before(matches, ids[i], ids[j])
        invariant forall id :: id in ids <==> id in matches && matches[id].season == season && id !in remaining
        decreases remaining
      {
        ghost var _ := SomeElement(remaining);
        var id :| id in remaining;
        var k := |ids|;
        while k > 0 && Before(matches, id, ids[k - 1])
          invariant 0 <= k <= |ids|
          invariant forall j :: k <= j < |ids| ==> Before(matches, id, ids[j])
        {
          k := k - 1;
        }
        InsertListed(ids, k, id, matches);
        ids := ids[..k] + [id] + ids[k..];
        remaining := remaining - {id};
      }
    }

    /** The shared computation of preview and apply. */
    method Compute(r: Request) returns (plan: Result<Plan, PushError>)
      ensures match plan
              case Err(e) => PreviewError(State(), r) == Some(e)
              case Ok(p) => PreviewError(State(), r) == None && IsPlan(p, State(), r)
    {
      if r.cutoff < 1 {
        return Err(InvalidCutoff);
      }
      if r.weeks < 1 {
        return Err(InvalidWeeks);
      }
      if r.season !in seasons {
        return Err(SeasonNotFound);
      }
      if ClosedFrom(State(), r.season, r.cutoff) {
        return Err(HasClosedWeeks);
      }
      var ids := GetPushbackMatches(r.season);
      var shifted, preserved, latest := PartitionMatches(ids, r);
      LatestIsLastDay(latest, ids, matches, r);
      hide Listed, IsLastDay;
      plan := Ok(Plan(shifted, preserved, latest));
    }

    method PartitionMatches(ids: seq<int>, r: Request) returns (shifted: seq<Shift>, preserved: seq<Kept>, latest: Option<int>)
      requires Listed(ids, matches, r.season)
      ensures shifted == ShiftsOf(ids, matches, r) && preserved == KeptOf(ids, matches, r)
      ensures LatestSoFar(latest, ids, matches, r, |ids|)
    {
      shifted, preserved, latest := [], [], None;
      for i := 0 to |ids|
        invariant shifted == ShiftsOf(ids[..i], matches, r) && preserved == KeptOf(ids[..i], matches, r)
        invariant LatestSoFar(latest, ids, matches, r, i)
      {
        assert ids[..i + 1][..i] == ids[..i];
        assert ids[i] in ids;
        var m := matches[ids[i]];
        LatestStep(latest, ids, matches, r, i);
        hide LatestSoFar, Listed;
        if m.week < r.cutoff {
          latest := Later(latest, m.date);
          continue;
        }
        if m.completed {
          preserved := preserved + [Kept(ids[i], m.week, m.date, m.home, m.away)];
          latest := Later(latest, m.date);
          continue;
        }
        shifted := shifted + [ShiftOf(ids[i], m, r)];
        latest := Later(latest, ShiftDate(m.date, 7 * r.weeks));
      }
      assert ids[..|ids|] == ids;
    }

    /** Move the listed matches one by one, if they are in the season and unplayed, then update the season. */
    method ApplyPushback(season: int, ids: seq<int>, weeks: int, days: int, newEndDate: Option<int>)
      requires season in seasons && Distinct(ids)
      modifies this`matches, this`seasons
      ensures matches.Keys == old(matches).Keys
      ensures forall id :: id in matches ==>
                var m := old(matches)[id];
                matches[id] == if id in ids && m.season == season && !m.completed
                               then m.(week := m.week + weeks, date := ShiftDate(m.date, days)) else m
      ensures var s := old(seasons)[season].(stale := false);
              seasons == old(seasons)[season := if newEndDate.Some? then s.(endDate := newEndDate) else s]
    {
      for i := 0 to |ids|
        invariant matches.Keys == old(matches).Keys && seasons == old(seasons)
        invariant forall id :: id in matches ==>
                    var m := old(matches)[id];
                    matches[id] == if id in ids[..i] && m.season == season && !m.completed
                                   then m.(week := m.week + weeks, date := ShiftDate(m.date, days)) else m
      {
        var id := ids[i];
        assert ids[..i + 1] == ids[..i] + [id];
        assert id !in ids[..i];
        if id in matches && matches[id].season == season && !matches[id].completed {
          var m := matches[id];
          matches := matches[id := m.(week := m.week + weeks, date := ShiftDate(m.date, days))];
        }
      }
      assert ids[..|ids|] == ids;
      if newEndDate.Some? {
        seasons := seasons[season := seasons[season].(endDate := newEndDate, stale := false)];
      } else {
        seasons := seasons[season := seasons[season].(stale := false)];
      }
    }

    /** Apply a pushback: the plan is the one a preview shows, and the calendar is the one it describes. */
    method Apply(r: Request) returns (plan: Result<Plan, PushError>)
      modifies this`matches, this`seasons
      ensures match plan
              case Err(e) => ApplyError(old(State()), r) == Some(e) && State() == old(State())
              case Ok(p) =>
                ApplyError(old(State()), r) == None && IsPlan(p, old(State()), r) && State() == Pushed(old(State()), r, p.newEndDate)
    {
      if r.season !in seasons {
        return Err(LookupFailed);
      }
      if seasons[r.season].closed {
        return Err(SeasonClosed);
      }
      plan := Compute(r);
      if plan.Err? {
        return;
      }
      var shifted := plan.value.shifted;
      var ids := [];
      for i := 0 to |shifted|
        invariant |ids| == i && forall j :: 0 <= j < i ==> ids[j] == shifted[j].id
      {
        ids := ids + [shifted[i].id];
      }
      ghost var before := matches;
      PlannedIDs(plan.value, State(), r, ids);
      hide IsPlan;
      ApplyPushback(r.season, ids, r.weeks, 7 * r.weeks, plan.value.newEndDate);
      forall id | id in before
        ensures matches[id] == MovedMatches(before, r)[id]
      {
      }
      SameMap(matches, MovedMatches(before, r));
    }
  }

  lemma InsertListed(ids: seq<int>, k: nat, id: int, matches: map<int, Match>)
    requires id in matches && id !in ids && k <= |ids|
    requires forall i :: 0 <= i < |ids| ==> ids[i] in matches
    requires forall i, j :: 0 <= i < j < |ids| ==> Before(matches, ids[i], ids[j])
    requires k > 0 ==> !Before(matches, id, ids[k - 1])
    requires forall j :: k <= j < |ids| ==> Before(matches, id, ids[j])
    ensures var t := ids[..k] + [id] + ids[k..];
            && (forall i :: 0 <= i < |t| ==> t[i] in matches)
            && (forall i, j :: 0 <= i < j < |t| ==> Before(matches, t[i], t[j]))
            && (forall x :: x in t <==> x in ids || x == id)
  {
    SpliceMembers(ids, k, id);
    forall i | 0 <= i < k
      ensures Before(matches, ids[i], id)
    {
      assert ids[k - 1] in ids && ids[k - 1] in matches;
      if i < k - 1 {
        BeforeFurtherOn(matches, ids[i], ids[k - 1], id);
      } else {
        OneIsBefore(matches, ids[k - 1], id);
      }
    }
    SpliceListed(ids, k, id, matches);
  }

  lemma BeforeFurtherOn(matches: map<int, Match>, a: int, b: int, c: int)
    requires a in matches && b in matches && c in matches && b != c
    requires Before(matches, a, b) && !Before(matches, c, b)
    ensures Before(matches, a, c)
  {
  }

  lemma OneIsBefore(matches: map<int, Match>, a: int, b: int)
    requires a in matches && b in matches && a != b && !Before(matches, b, a)
    ensures Before(matches, a, b)
  {
  }

  lemma SpliceListed(ids: seq<int>, k: nat, id: int, matches: map<int, Match>)
    requires id in matches && k <= |ids|
    requires forall i :: 0 <= i < |ids| ==> ids[i] in matches
    requires forall i, j :: 0 <= i < j < |ids| ==> Before(matches, ids[i], ids[j])
    requires forall i :: 0 <= i < k ==> Before(matches, ids[i], id)
    requires forall j :: k <= j < |ids| ==> Before(matches, id, ids[j])
    ensures var t := ids[..k] + [id] + ids[k..];
            && (forall i :: 0 <= i < |t| ==> t[i] in matches)
            && (forall i, j :: 0 <= i < j < |t| ==> Before(matches, t[i], t[j]))
  {
    hide Before;
    var t := ids[..k] + [id] + ids[k..];
    forall i | 0 <= i < |t|
      ensures t[i] in matches
    {
      assert t[i] == if i < k then ids[i] else if i == k then id else ids[i - 1];
    }
    forall i, j | 0 <= i < j < |t|
      ensures Before(matches, t[i], t[j])
    {
      assert t[i] == if i < k then ids[i] else if i == k then id else ids[i - 1];
      assert t[j] == if j < k then ids[j] else if j == k then id else ids[j - 1];
    }
  }

  lemma {:induction false} ShiftsCover(ids: seq<int>, matches: map<int, Match>, r: Request)
    requires forall i :: 0 <= i < |ids| ==> ids[i] in matches
    ensures forall id :: id in ids && matches[id].week >= r.cutoff && !matches[id].completed ==>
              ShiftOf(id, matches[id], r) in ShiftsOf(ids, matches, r)
    ensures forall s :: s in ShiftsOf(ids, matches, r) ==>
              s.id in ids && matches[s.id].week >= r.cutoff && !matches[s.id].completed && s == ShiftOf(s.id, matches[s.id], r)
  {
    if ids != [] {
      var n := |ids| - 1;
      ShiftsCover(ids[..n], matches, r);
      assert ids == ids[..n] + [ids[n]];
    }
  }

  lemma {:induction false} ShiftsAreDistinct(ids: seq<int>, matches: map<int, Match>, r: Request)
    requires forall i :: 0 <= i < |ids| ==> ids[i] in matches
    requires Distinct(ids)
    ensures forall k, l :: 0 <= k < l < |ShiftsOf(ids, matches, r)| ==> ShiftsOf(ids, matches, r)[k].id != ShiftsOf(ids, matches, r)[l].id
  {
    if ids != [] {
      var n := |ids| - 1;
      ShiftsAreDistinct(ids[..n], matches, r);
      ShiftsCover(ids[..n], matches, r);
      var earlier := ShiftsOf(ids[..n], matches, r);
      forall k | 0 <= k < |earlier|
        ensures earlier[k].id != ids[n]
      {
        assert earlier[k] in earlier;
      }
    }
  }

  /** The IDs taken from a plan are exactly those of the matches that move, each once. */
  lemma PlannedIDs(plan: Plan, c: Calendar, r: Request, ids: seq<int>)
    requires IsPlan(plan, c, r) && |ids| == |plan.shifted| && forall k :: 0 <= k < |ids| ==> ids[k] == plan.shifted[k].id
    ensures Distinct(ids)
    ensures forall id :: id in c.matches && c.matches[id].season == r.season && !c.matches[id].completed ==>
              (id in ids <==> Moves(c.matches[id], r))
  {
    var listed :| Listed(listed, c.matches, r.season) && plan.shifted == ShiftsOf(listed, c.matches, r)
                  && plan.preserved == KeptOf(listed, c.matches, r);
    ListedIsDistinct(listed, c.matches, r.season);
    ShiftsCover(listed, c.matches, r);
    ShiftsAreDistinct(listed, c.matches, r);
    hide ShiftsOf, KeptOf;
    forall id | id in c.matches && Moves(c.matches[id], r)
      ensures id in ids
    {
      assert id in listed && ShiftOf(id, c.matches[id], r) in plan.shifted;
      var k :| 0 <= k < |plan.shifted| && plan.shifted[k] == ShiftOf(id, c.matches[id], r);
      assert ids[k] == id;
    }
    forall id | id in ids
      ensures id in c.matches && Moves(c.matches[id], r)
    {
      var k :| 0 <= k < |ids| && ids[k] == id;
      assert plan.shifted[k] in plan.shifted;
      assert id in listed;
    }
  }

  lemma ListedIsDistinct(ids: seq<int>, matches: map<int, Match>, season: int)
    requires Listed(ids, matches, season)
    ensures Distinct(ids)
  {
    forall i, j | 0 <= i < j < |ids|
      ensures ids[i] != ids[j]
    {
      assert Before(matches, ids[i], ids[j]);
    }
  }
}
