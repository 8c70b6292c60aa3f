/** Pushbacks as transformations of the calendar: previews agree, applications compose, and what stays. */
module PushbackTheorems {
  import opened Prelude
  import opened Pushback

  /** The effect of applying a pushback, with the last day it records. */
  ghost predicate Applies(c: Calendar, r: Request, after: Calendar) {
    && ApplyError(c, r) == None
    && exists last :: IsLastDay(MovedMatches(c.matches, r), r.season, last) && after == Pushed(c, r, last)
  }

  /** A match of the season from the cutoff on that has been played, and how a plan shows it. */
  predicate Stays(m: Match, r: Request) {
    m.season == r.season && m.week >= r.cutoff && m.completed
  }

  function KeptFor(id: int, m: Match): Kept {
    Kept(id, m.week, m.date, m.home, m.away)
  }

  // ---- Preview and apply --------------------------------------------------------------------

  /**
   Main result: a plan tells exactly what applying it does: its shifts are the moved matches with
   their new weeks and dates, its preserved matches stay, and its end date is the season's.
   */
  lemma PlanComesTrue(c: Calendar, r: Request, plan: Plan)
    requires ApplyError(c, r) == None && IsPlan(plan, c, r)
    ensures var after := Pushed(c, r, plan.newEndDate);
            && Applies(c, r, after)
            && (forall id :: id in c.matches && Moves(c.matches[id], r) <==> exists s :: s in plan.shifted && s.id == id)
            && (forall s :: s in plan.shifted ==>
                  && s.id in c.matches && s.week == c.matches[s.id].week && s.date == c.matches[s.id].date
                  && s.home == c.matches[s.id].home && s.away == c.matches[s.id].away
                  && after.matches[s.id].week == s.newWeek && after.matches[s.id].date == s.newDate)
            && (forall id :: id in c.matches && Stays(c.matches[id], r) <==> exists k :: k in plan.preserved && k.id == id)
            && (forall k :: k in plan.preserved ==>
                  && k.id in c.matches && after.matches[k.id] == c.matches[k.id]
                  && k.week == c.matches[k.id].week && k.date == c.matches[k.id].date
                  && k.home == c.matches[k.id].home && k.away == c.matches[k.id].away)
            && (plan.newEndDate.Some? ==> after.seasons[r.season].endDate == plan.newEndDate)
            && (plan.newEndDate.None? ==> after.seasons[r.season].endDate == c.seasons[r.season].endDate)
            && !after.seasons[r.season].stale
  {
    var ids :| Listed(ids, c.matches, r.season) && plan.shifted == ShiftsOf(ids, c.matches, r)
               && plan.preserved == KeptOf(ids, c.matches, r);
    ShiftsCover(ids, c.matches, r);
    KeptCover(ids, c.matches, r);
    hide ShiftsOf, KeptOf, IsLastDay;
    forall id | id in c.matches && Moves(c.matches[id], r)
      ensures exists s :: s in plan.shifted && s.id == id
    {
      assert id in ids;
      assert ShiftOf(id, c.matches[id], r) in plan.shifted;
    }
    forall id | id in c.matches && Stays(c.matches[id], r)
      ensures exists k :: k in plan.preserved && k.id == id
    {
      assert id in ids;
      assert KeptFor(id, c.matches[id]) in plan.preserved;
    }
    forall k | k in plan.preserved
      ensures k.id in c.matches && Stays(c.matches[k.id], r) && k == KeptFor(k.id, c.matches[k.id])
    {
      assert k.id in ids;
    }
    forall s | s in plan.shifted
      ensures s.id in c.matches && Moves(c.matches[s.id], r) && s == ShiftOf(s.id, c.matches[s.id], r)
    {
      assert s.id in ids;
    }
  }

  lemma {:induction false} KeptCover(ids: seq<int>, matches: map<int, Match>, r: Request)
    requires forall i :: 0 <= i < |ids| ==> ids[i] in matches
    ensures forall id :: id in ids && matches[id].week >= r.cutoff && matches[id].completed ==>
              KeptFor(id, matches[id]) in KeptOf(ids, matches, r)
    ensures forall k :: k in KeptOf(ids, matches, r) ==>
              k.id in ids && matches[k.id].week >= r.cutoff && matches[k.id].completed && k == KeptFor(k.id, matches[k.id])
  {
    if ids != [] {
      var n := |ids| - 1;
      KeptCover(ids[..n], matches, r);
      assert ids == ids[..n] + [ids[n]];
    }
  }

  predicate EarlierWeek(week: int, id: int, week': int, id': int) {
    week < week' || (week == week' && id < id')
  }

  predicate ShiftsAscend(shifted: seq<Shift>) {
    forall k, l :: 0 <= k < l < |shifted| ==> EarlierWeek(shifted[k].week, shifted[k].id, shifted[l].week, shifted[l].id)
  }

  predicate KeptAscend(kept: seq<Kept>) {
    forall k, l :: 0 <= k < l < |kept| ==> EarlierWeek(kept[k].week, kept[k].id, kept[l].week, kept[l].id)
  }

  ghost predicate InListing(ids: seq<int>, matches: map<int, Match>) {
    && (forall i :: 0 <= i < |ids| ==> ids[i] in matches)
    && (forall i, j :: 0 <= i < j < |ids| ==> Before(matches, ids[i], ids[j]))
  }

  lemma {:induction false} ShiftsInOrder(ids: seq<int>, matches: map<int, Match>, r: Request)
    requires InListing(ids, matches)
    ensures ShiftsAscend(ShiftsOf(ids, matches, r))
  {
    if ids != [] {
      var n := |ids| - 1;
      assert InListing(ids[..n], matches);
      ShiftsInOrder(ids[..n], matches, r);
      ShiftsCover(ids[..n], matches, r);
      var shifted := ShiftsOf(ids[..n], matches, r);
      forall k | 0 <= k < |shifted|
        ensures EarlierWeek(shifted[k].week, shifted[k].id, matches[ids[n]].week, ids[n])
      {
        assert shifted[k] in shifted;
        ListedBeforeLast(ids, matches, shifted[k].id);
      }
      hide EarlierWeek, InListing;
    }
  }

  lemma {:induction false} KeptInOrder(ids: seq<int>, matches: map<int, Match>, r: Request)
    requires InListing(ids, matches)
    ensures KeptAscend(KeptOf(ids, matches, r))
  {
    if ids != [] {
      var n := |ids| - 1;
      assert InListing(ids[..n], matches);
      KeptInOrder(ids[..n], matches, r);
      KeptCover(ids[..n], matches, r);
      var kept := KeptOf(ids[..n], matches, r);
      forall k | 0 <= k < |kept|
        ensures EarlierWeek(kept[k].week, kept[k].id, matches[ids[n]].week, ids[n])
      {
        assert kept[k] in kept;
        ListedBeforeLast(ids, matches, kept[k].id);
      }
      hide EarlierWeek, InListing;
    }
  }

  lemma ListedBeforeLast(ids: seq<int>, matches: map<int, Match>, id: int)
    requires ids != [] && InListing(ids, matches) && id in ids[..|ids| - 1]
    ensures id in matches && EarlierWeek(matches[id].week, id, matches[ids[|ids| - 1]].week, ids[|ids| - 1])
  {
    var i :| 0 <= i < |ids| - 1 && ids[i] == id;
    assert Before(matches, ids[i], ids[|ids| - 1]);
  }

  /** A plan lists what it shifts, and what it preserves, by week and then by ID. */
  lemma PlanIsInOrder(c: Calendar, r: Request, plan: Plan)
    requires IsPlan(plan, c, r)
    ensures ShiftsAscend(plan.shifted) && KeptAscend(plan.preserved)
  {
    var ids :| Listed(ids, c.matches, r.season) && plan.shifted == ShiftsOf(ids, c.matches, r)
               && plan.preserved == KeptOf(ids, c.matches, r);
    hide IsLastDay, MovedMatches, ShiftsOf, KeptOf, ShiftsAscend, KeptAscend, Before;
    ShiftsInOrder(ids, c.matches, r);
    KeptInOrder(ids, c.matches, r);
  }

  /** A pushback is applied exactly when its numbers are positive, its season is there and open, and no week from the cutoff on is closed. */
  lemma AppliesExactlyWhen(c: Calendar, r: Request)
    ensures ApplyError(c, r) == None <==>
            && r.cutoff >= 1 && r.weeks >= 1 && r.season in c.seasons && !c.seasons[r.season].closed
            && forall week :: week >= r.cutoff ==> (r.season, week) !in c.closedWeeks
  {
    if ClosedFrom(c, r.season, r.cutoff) {
      var w :| w in c.closedWeeks && w.0 == r.season && w.1 >= r.cutoff;
      assert (r.season, w.1) in c.closedWeeks;
    }
    if week :| week >= r.cutoff && (r.season, week) in c.closedWeeks {
      assert (r.season, week).0 == r.season && (r.season, week).1 >= r.cutoff;
    }
  }

  /** There is one way to list the matches of a season. */
  lemma {:induction false} ListingIsUnique(xs: seq<int>, ys: seq<int>, matches: map<int, Match>)
    requires forall i :: 0 <= i < |xs| ==> xs[i] in matches
    requires forall i :: 0 <= i < |ys| ==> ys[i] in matches
    requires forall i, j :: 0 <= i < j < |xs| ==> Before(matches, xs[i], xs[j])
    requires forall i, j :: 0 <= i < j < |ys| ==> Before(matches, ys[i], ys[j])
    requires forall id :: id in xs <==> id in ys
    ensures xs == ys
  {
    hide Before;
    if xs == [] {
      SomeMember(ys);
    } else {
      var x := xs[|xs| - 1];
      InBoth(xs, ys, |xs| - 1);
      var y := ys[|ys| - 1];
      InBoth(ys, xs, |ys| - 1);
      ListedLast(xs, matches, y);
      ListedLast(ys, matches, x);
      OneIsLast(matches, x, y);
      var us, vs := xs[..|xs| - 1], ys[..|ys| - 1];
      forall id
        ensures id in us <==> id in vs
      {
        ListedWithoutLast(xs, matches, id);
        ListedWithoutLast(ys, matches, id);
      }
      ListingIsUnique(us, vs, matches);
      assert xs == us + [x] && ys == vs + [y];
    }
  }

  lemma InBoth(xs: seq<int>, ys: seq<int>, i: nat)
    requires i < |xs| && forall id :: id in xs <==> id in ys
    ensures xs[i] in ys && ys != []
  {
    var x := xs[i];
    assert x in xs;
  }

  lemma OneIsLast(matches: map<int, Match>, a: int, b: int)
    requires a in matches && b in matches
    requires (b == a || Before(matches, b, a)) && (a == b || Before(matches, a, b))
    ensures a == b
  {
  }

  lemma ListedLast(xs: seq<int>, matches: map<int, Match>, id: int)
    requires forall i :: 0 <= i < |xs| ==> xs[i] in matches
    requires forall i, j :: 0 <= i < j < |xs| ==> Before(matches, xs[i], xs[j])
    requires id in xs
    ensures id == xs[|xs| - 1] || Before(matches, id, xs[|xs| - 1])
  {
    var i :| 0 <= i < |xs| && xs[i] == id;
    hide Before;
  }

  lemma ListedWithoutLast(xs: seq<int>, matches: map<int, Match>, id: int)
    requires xs != [] && forall i :: 0 <= i < |xs| ==> xs[i] in matches
    requires forall i, j :: 0 <= i < j < |xs| ==> Before(matches, xs[i], xs[j])
    ensures id in xs[..|xs| - 1] <==> id in xs && id != xs[|xs| - 1]
  {
    assert xs == xs[..|xs| - 1] + [xs[|xs| - 1]];
    if id in xs[..|xs| - 1] {
      var i :| 0 <= i < |xs| - 1 && xs[..|xs| - 1][i] == id;
      assert Before(matches, xs[i], xs[|xs| - 1]);
    }
  }

  lemma LastDayIsUnique(matches: map<int, Match>, season: int, a: Option<int>, b: Option<int>)
    requires IsLastDay(matches, season, a) && IsLastDay(matches, season, b)
    ensures a == b
  {
    hide PlayedOn;
    if a.Some? && b.Some? {
      assert PlayedOn(matches, season, a.value) && PlayedOn(matches, season, b.value);
    }
  }

  lemma PlanIsUnique(c: Calendar, r: Request, p: Plan, q: Plan)
    requires IsPlan(p, c, r) && IsPlan(q, c, r)
    ensures p == q
  {
    var xs :| Listed(xs, c.matches, r.season) && p.shifted == ShiftsOf(xs, c.matches, r) && p.preserved == KeptOf(xs, c.matches, r);
    var ys :| Listed(ys, c.matches, r.season) && q.shifted == ShiftsOf(ys, c.matches, r) && q.preserved == KeptOf(ys, c.matches, r);
    LastDayIsUnique(MovedMatches(c.matches, r), r.season, p.newEndDate, q.newEndDate);
    hide IsLastDay, ShiftsOf, KeptOf, Before, MovedMatches;
    forall id
      ensures id in xs <==> id in ys
    {
    }
    ListingIsUnique(xs, ys, c.matches);
  }

  /** What a preview may answer, and what applying may. */
  ghost predicate PreviewAnswer(c: Calendar, r: Request, answer: Result<Plan, PushError>) {
    match answer
    case Err(e) => PreviewError(c, r) == Some(e)
    case Ok(plan) => PreviewError(c, r) == None && IsPlan(plan, c, r)
  }

  ghost predicate ApplyAnswer(c: Calendar, r: Request, answer: Result<Plan, PushError>) {
    match answer
    case Err(e) => ApplyError(c, r) == Some(e)
    case Ok(plan) => ApplyError(c, r) == None && IsPlan(plan, c, r)
  }

  /**
   Main result: a preview and an application of one request to one calendar give the same answer,
   plan for plan and error for error, exactly when the season exists and is open.
   */
  lemma PreviewForetells(c: Calendar, r: Request, preview: Result<Plan, PushError>, applied: Result<Plan, PushError>)
    requires PreviewAnswer(c, r, preview) && ApplyAnswer(c, r, applied)
    ensures preview == applied <==> r.season in c.seasons && !c.seasons[r.season].closed
  {
    hide IsPlan, ClosedFrom;
    if preview.Ok? && applied.Ok? {
      PlanIsUnique(c, r, preview.value, applied.value);
    }
  }

  // ---- What stays -----------------------------------------------------------------------------

  /** Other seasons, completed matches and weeks before the cutoff are untouched. */
  lemma OthersUntouched(c: Calendar, r: Request, after: Calendar, id: int)
    requires Applies(c, r, after) && id in c.matches
    requires c.matches[id].season != r.season || c.matches[id].completed || c.matches[id].week < r.cutoff
    ensures after.matches.Keys == c.matches.Keys && after.matches[id] == c.matches[id]
    ensures forall season :: season in c.seasons && season != r.season ==> after.seasons[season] == c.seasons[season]
    ensures after.closedWeeks == c.closedWeeks
  {
  }

  /**
   A match that moves does so by the weeks asked for, seven days each; any two keep their distance
   in weeks and in days, and their weekday.
   */
  lemma MovedMatchesStayTogether(c: Calendar, r: Request, after: Calendar, i: int, j: int)
    requires Applies(c, r, after) && i in c.matches && j in c.matches && Moves(c.matches[i], r) && Moves(c.matches[j], r)
    requires c.matches[i].date.Some? && c.matches[j].date.Some?
    ensures var a, b, a', b' := c.matches[i], c.matches[j], after.matches[i], after.matches[j];
            && a'.date.Some? && b'.date.Some?
            && a'.week - b'.week == a.week - b.week && a'.date.value - b'.date.value == a.date.value - b.date.value
            && a'.week == a.week + r.weeks && a'.date.value == a.date.value + 7 * (a'.week - a.week)
            && a'.date.value % 7 == a.date.value % 7 && a'.date.value > a.date.value
  {
    assert r.weeks >= 1;
    hide IsLastDay, ApplyError;
  }

  // ---- Composition ------------------------------------------------------------------------------

  /** The same season pushed back further, from where the first pushback left its matches. */
  function Further(r: Request, weeks: int): Request {
    Request(r.season, r.cutoff + r.weeks, weeks)
  }

  function Combined(r: Request, weeks: int): Request {
    Request(r.season, r.cutoff, r.weeks + weeks)
  }

  lemma MovesCompose(m: Match, r: Request, weeks: int)
    requires r.weeks >= 1
    ensures Moved(Moved(m, r), Further(r, weeks)) == Moved(m, Combined(r, weeks))
  {
    assert 7 * r.weeks + 7 * weeks == 7 * (r.weeks + weeks);
  }

  lemma MatchesCompose(matches: map<int, Match>, r: Request, weeks: int)
    requires r.weeks >= 1
    ensures MovedMatches(MovedMatches(matches, r), Further(r, weeks)) == MovedMatches(matches, Combined(r, weeks))
  {
    hide Moved;
    var one, two := MovedMatches(matches, Combined(r, weeks)), MovedMatches(MovedMatches(matches, r), Further(r, weeks));
    forall id | id in matches
      ensures two[id] == one[id]
    {
      MovesCompose(matches[id], r, weeks);
    }
    SameMap(two, one);
  }

  lemma ErrorsCompose(c: Calendar, r: Request, weeks: int, mid: Calendar)
    requires weeks >= 1 && Applies(c, r, mid)
    ensures ApplyError(mid, Further(r, weeks)) == None && ApplyError(c, Combined(r, weeks)) == None
  {
    hide IsLastDay;
    assert !ClosedFrom(c, r.season, r.cutoff);
  }

  /** Undated seasons stay undated. */
  lemma DatedStaysDated(matches: map<int, Match>, r: Request, season: int)
    ensures (exists day :: PlayedOn(matches, season, day)) <==> exists day :: PlayedOn(MovedMatches(matches, r), season, day)
  {
    var moved := MovedMatches(matches, r);
    if day :| PlayedOn(matches, season, day) {
      var id :| id in matches && matches[id].season == season && matches[id].date == Some(day);
      assert id in moved && moved[id].season == season && moved[id].date == Some(moved[id].date.value);
      assert PlayedOn(moved, season, moved[id].date.value);
    }
    if day :| PlayedOn(moved, season, day) {
      var id :| id in moved && moved[id].season == season && moved[id].date == Some(day);
      assert matches[id].season == season && matches[id].date == Some(matches[id].date.value);
      assert PlayedOn(matches, season, matches[id].date.value);
    }
  }

  /**
   Main result: pushing back at a cutoff and then again, from the shifted cutoff, leaves the very
   calendar that one pushback by the sum leaves: the same matches and the same end date.
   */
  lemma PushbacksCompose(c: Calendar, r: Request, weeks: int, mid: Calendar, after: Calendar)
    requires weeks >= 1 && Applies(c, r, mid)
    ensures Applies(mid, Further(r, weeks), after) <==> Applies(c, Combined(r, weeks), after)
  {
    ErrorsCompose(c, r, weeks, mid);
    MatchesCompose(c.matches, r, weeks);
    var first :| IsLastDay(MovedMatches(c.matches, r), r.season, first) && mid == Pushed(c, r, first);
    hide MovedMatches, ApplyError;
    var moved := MovedMatches(c.matches, Combined(r, weeks));
    forall last | IsLastDay(moved, r.season, last)
      ensures Pushed(mid, Further(r, weeks), last) == Pushed(c, Combined(r, weeks), last)
    {
      BothDatedOrNot(c, r, weeks, first, last);
    }
  }

  /** Either both pushbacks record a last day or neither does. */
  lemma BothDatedOrNot(c: Calendar, r: Request, weeks: int, first: Option<int>, last: Option<int>)
    requires IsLastDay(MovedMatches(c.matches, r), r.season, first)
    requires IsLastDay(MovedMatches(c.matches, Combined(r, weeks)), r.season, last)
    ensures first.Some? <==> last.Some?
  {
    DatedStaysDated(c.matches, r, r.season);
    DatedStaysDated(c.matches, Combined(r, weeks), r.season);
    hide MovedMatches, PlayedOn;
  }

  /** And the two ways are refused together: a first pushback that applies never blocks the second. */
  lemma RefusedTogether(c: Calendar, r: Request, weeks: int)
    requires r.weeks >= 1 && weeks >= 1
    ensures ApplyError(c, r) == ApplyError(c, Combined(r, weeks))
  {
  }

  // ---- Teams and weeks --------------------------------------------------------------------------

  predicate ShareTeam(m: Match, n: Match) {
    m.home == n.home || m.home == n.away || m.away == n.home || m.away == n.away
  }

  /** No team is entered twice in a week of the season. */
  ghost predicate OneMatchAWeek(matches: map<int, Match>, season: int) {
    forall i, j :: i in matches && j in matches && i != j
                   && matches[i].season == matches[j].season == season && matches[i].week == matches[j].week ==>
      !ShareTeam(matches[i], matches[j])
  }

  /** A completed match already stands in the week an unplayed one with a common team moves to. */
  ghost predicate Collides(matches: map<int, Match>, r: Request) {
    exists i, j :: i in matches && j in matches && Moves(matches[i], r) && matches[j].season == r.season && matches[j].completed
                   && matches[j].week == matches[i].week + r.weeks && ShareTeam(matches[i], matches[j])
  }

  /**
   Main result: a pushback keeps every team to one match a week exactly when no unplayed match
   moves into a week in which a team of it has already played.
   */
  lemma OneMatchAWeekExactlyWhen(matches: map<int, Match>, r: Request)
    requires r.weeks >= 1 && OneMatchAWeek(matches, r.season)
    ensures OneMatchAWeek(MovedMatches(matches, r), r.season) <==> !Collides(matches, r)
  {
    var moved := MovedMatches(matches, r);
    if Collides(matches, r) {
      var i, j :| i in matches && j in matches && Moves(matches[i], r) && matches[j].season == r.season && matches[j].completed
                  && matches[j].week == matches[i].week + r.weeks && ShareTeam(matches[i], matches[j]);
      assert moved[i].week == moved[j].week && ShareTeam(moved[i], moved[j]);
    } else {
      forall i, j | i in moved && j in moved && i != j && moved[i].season == moved[j].season == r.season && moved[i].week == moved[j].week
        ensures !ShareTeam(moved[i], moved[j])
      {
        NoNewClash(matches, r, i, j);
      }
    }
  }

  lemma NoNewClash(matches: map<int, Match>, r: Request, i: int, j: int)
    requires r.weeks >= 1 && OneMatchAWeek(matches, r.season) && !Collides(matches, r)
    requires i in matches && j in matches && i != j && matches[i].season == matches[j].season == r.season
    requires Moved(matches[i], r).week == Moved(matches[j], r).week
    ensures !ShareTeam(Moved(matches[i], r), Moved(matches[j], r))
  {
    if Moves(matches[i], r) && !Moves(matches[j], r) {
      assert matches[j].completed && matches[j].week == matches[i].week + r.weeks;
    } else if Moves(matches[j], r) && !Moves(matches[i], r) {
      assert matches[i].completed && matches[i].week == matches[j].week + r.weeks;
      assert ShareTeam(matches[i], matches[j]) <==> ShareTeam(matches[j], matches[i]);
    } else {
      assert matches[i].week == matches[j].week;
    }
  }

  const STANDING := Match(1, 2, None, true, 10, 11)
  const COMING := Match(1, 1, None, false, 10, 12)

  /** It does happen: a match put off from week 1, and one of its teams played ahead in week 2. */
  lemma PlayedAheadCollides()
    ensures var matches, r := map[1 := COMING, 2 := STANDING], Request(1, 1, 1);
            && OneMatchAWeek(matches, r.season) && Collides(matches, r)
            && !OneMatchAWeek(MovedMatches(matches, r), r.season)
  {
    var matches, r := map[1 := COMING, 2 := STANDING], Request(1, 1, 1);
    assert Moves(matches[1], r) && matches[2].completed && ShareTeam(matches[1], matches[2]);
    OneMatchAWeekExactlyWhen(matches, r);
  }
}
