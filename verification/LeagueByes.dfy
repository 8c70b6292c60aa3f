/**
 Bye requests in leagues of an odd number of teams: what every request map leads to in a single
 and in a double round robin, in every order in which Go may iterate its maps.
 */
module LeagueByes {
  import opened Prelude
  import opened Schedule
  import opened Ordering
  import opened RoundRobin
  import opened CircleMethod
  import opened ByeRequests
  import opened ByeProperties
  import opened ByeOutcomes
  import opened ByeMatching
  import opened Generators
  import opened ScheduleTheorems

  // ---- Who is idle when: the single round robin ------------------------------------------------

  /** The team draws the bye seat in the round of that week. */
  ghost predicate DrawsBye(teamIDs: seq<int>, week: int, team: int)
    requires |teamIDs| % 2 != 0
  {
    1 <= week <= |teamIDs| && team == teamIDs[IdleTeam(teamIDs, week)]
  }

  /** In an odd league each team is idle in its own week and no other. */
  lemma RotationIdle(teamIDs: seq<int>, week: int, team: int)
    requires ValidIDs(teamIDs) && |teamIDs| >= 2 && |teamIDs| % 2 != 0
    ensures Idle(Rotation(teamIDs), week, team) <==> DrawsBye(teamIDs, week, team)
  {
    var es := Rotation(teamIDs);
    RotationWellFormed(teamIDs);
    RotationTeams(teamIDs);
    NotPlayingIsNoMatch(es, week, team);
    hide Rotation, AllTeams, PlayingTeams, Plays;
    if 1 <= week <= |teamIDs| && team in teamIDs {
      var p :| 0 <= p < |teamIDs| && teamIDs[p] == team;
      OneByePerWeekAndTeam(teamIDs);
      assert Plays(es, week, teamIDs[p]) == 0 <==> p == IdleTeam(teamIDs, week);
    }
  }

  lemma RotationTeams(teamIDs: seq<int>)
    requires ValidIDs(teamIDs) && |teamIDs| >= 2
    ensures forall t :: t in AllTeams(Rotation(teamIDs)) <==> t in teamIDs
    ensures forall w :: w in Weeks(Rotation(teamIDs)) <==> 1 <= w <= |Seats(teamIDs)| - 1
  {
    hide *;
    forall t
      ensures t in AllTeams(Rotation(teamIDs)) <==> t in teamIDs
    {
      TeamOfRotation(teamIDs, t);
    }
    forall w
      ensures w in Weeks(Rotation(teamIDs)) <==> 1 <= w <= |Seats(teamIDs)| - 1
    {
      WeekOfRotation(teamIDs, w);
    }
  }

  lemma TeamOfRotation(teamIDs: seq<int>, team: int)
    requires ValidIDs(teamIDs) && |teamIDs| >= 2
    ensures team in AllTeams(Rotation(teamIDs)) <==> team in teamIDs
  {
    var es := Rotation(teamIDs);
    TeamInUse(es, team);
    RotationWellFormed(teamIDs);
    hide Rotation, AllTeams, WeeksAscend;
    if i :| 0 <= i < |es| && Involves(es[i], team) {
      assert es[i] in es;
    }
    if team in teamIDs {
      var u := if team == teamIDs[0] then teamIDs[1] else teamIDs[0];
      EveryPairMeetsOnce(teamIDs, team, u);
      CountZero(es, MeetingOf(team, u));
    }
  }

  lemma WeekOfRotation(teamIDs: seq<int>, week: int)
    requires ValidIDs(teamIDs) && |teamIDs| >= 2
    ensures week in Weeks(Rotation(teamIDs)) <==> 1 <= week <= |Seats(teamIDs)| - 1
  {
    var es := Rotation(teamIDs);
    WeekInUse(es, week);
    RotationWellFormed(teamIDs);
    hide Rotation, Weeks, WeeksAscend, IdleTeam, IdleWeek;
    if i :| 0 <= i < |es| && es[i].week == week {
      assert es[i] in es;
    }
    if 1 <= week <= |Seats(teamIDs)| - 1 {
      var p := if |teamIDs| % 2 != 0 && IdleTeam(teamIDs, week) == 0 then 1 else 0;
      if |teamIDs| % 2 != 0 {
        IdleWeeksAndTeamsMatch(teamIDs, p, week);
      }
      WeeklyMatching(teamIDs, week, p);
      CountZero(es, PlayingIn(week, teamIDs[p]));
    }
  }

  // ---- Who is idle when: home and away ---------------------------------------------------------

  /** In the double round robin of an odd league each team is idle twice, half a season apart. */
  lemma HomeAndAwayIdle(teamIDs: seq<int>, week: int, team: int)
    requires ValidIDs(teamIDs) && |teamIDs| >= 2 && |teamIDs| % 2 != 0
    ensures Idle(HomeAndAway(teamIDs), week, team) <==>
            DrawsBye(teamIDs, week, team) || DrawsBye(teamIDs, week - |teamIDs|, team)
  {
    hide *;
    HomeAndAwayOfOddLeague(teamIDs);
    MirroredIdle(Rotation(teamIDs), |teamIDs|, week, team);
    RotationIdle(teamIDs, week, team);
    RotationIdle(teamIDs, week - |teamIDs|, team);
  }

  lemma HomeAndAwayOfOddLeague(teamIDs: seq<int>)
    requires ValidIDs(teamIDs) && |teamIDs| >= 2 && |teamIDs| % 2 != 0
    ensures HomeAndAway(teamIDs) == Rotation(teamIDs) + Mirrored(Rotation(teamIDs), |teamIDs|)
    ensures forall w :: w in Weeks(Rotation(teamIDs)) <==> 1 <= w <= |teamIDs|
  {
    OddSeats(teamIDs);
    hide *;
    RotationLastWeek(teamIDs);
    RotationTeams(teamIDs);
    HomeAndAwayIs(teamIDs);
  }

  lemma OddSeats(teamIDs: seq<int>)
    requires |teamIDs| % 2 != 0
    ensures |Seats(teamIDs)| == |teamIDs| + 1
  {
  }

  lemma MirroredIdle(first: seq<ScheduleEntry>, n: int, week: int, team: int)
    requires forall w :: w in Weeks(first) <==> 1 <= w <= n
    ensures Idle(first + Mirrored(first, n), week, team) <==> Idle(first, week, team) || Idle(first, week - n, team)
  {
    var second := Mirrored(first, n);
    var es := first + second;
    NotPlayingIsNoMatch(es, week, team);
    NotPlayingIsNoMatch(first, week, team);
    NotPlayingIsNoMatch(first, week - n, team);
    MirroredTeams(first, n, team);
    MirroredWeeks(first, n, week);
    hide AllTeams, PlayingTeams, Mirrored, Plays, Weeks;
    PlaysConcat(first, second, week, team);
    MirroredCounts(first, n);
    if !(1 <= week <= n) {
      UnusedWeek(first, week, team);
    }
    if !(1 <= week - n <= n) {
      UnusedWeek(first, week - n, team);
    }
  }

  lemma TeamInUse(es: seq<ScheduleEntry>, team: int)
    ensures team in AllTeams(es) <==> team != BYE && exists i :: 0 <= i < |es| && Involves(es[i], team)
  {
    if i :| 0 <= i < |es| && Involves(es[i], team) {
      assert es[i].home == team || es[i].away == team;
    }
  }

  lemma MirroredTeams(first: seq<ScheduleEntry>, n: int, team: int)
    ensures team in AllTeams(first + Mirrored(first, n)) <==> team in AllTeams(first)
  {
    var es := first + Mirrored(first, n);
    TeamInUse(es, team);
    TeamInUse(first, team);
    hide AllTeams;
    assert forall i :: 0 <= i < |first| ==> es[i] == first[i];
    if i :| 0 <= i < |es| && Involves(es[i], team) {
      assert Involves(first[if i < |first| then i else i - |first|], team);
    }
    if i :| 0 <= i < |first| && Involves(first[i], team) {
      assert Involves(es[i], team);
    }
  }

  lemma MirroredWeeks(first: seq<ScheduleEntry>, n: int, week: int)
    ensures week in Weeks(first + Mirrored(first, n)) <==> week in Weeks(first) || week - n in Weeks(first)
  {
    var es := first + Mirrored(first, n);
    WeekInUse(es, week);
    WeekInUse(first, week);
    WeekInUse(first, week - n);
    hide Weeks;
    if i :| 0 <= i < |first| && first[i].week == week {
      assert es[i].week == week;
    }
    if i :| 0 <= i < |first| && first[i].week == week - n {
      assert es[|first| + i].week == week;
    }
    if i :| 0 <= i < |es| && es[i].week == week {
      assert if i < |first| then first[i].week == week else first[i - |first|].week == week - n;
    }
  }

  lemma HomeAndAwayWeeks(teamIDs: seq<int>)
    requires ValidIDs(teamIDs) && |teamIDs| >= 2 && |teamIDs| % 2 != 0
    ensures forall w :: w in Weeks(HomeAndAway(teamIDs)) <==> 1 <= w <= 2 * |teamIDs|
  {
    hide *;
    HomeAndAwayOfOddLeague(teamIDs);
    forall w
      ensures w in Weeks(HomeAndAway(teamIDs)) <==> 1 <= w <= 2 * |teamIDs|
    {
      MirroredWeeks(Rotation(teamIDs), |teamIDs|, w);
    }
  }

  // ---- Bye weeks -------------------------------------------------------------------------------

  ghost predicate OddLeague(teamIDs: seq<int>) {
    ValidIDs(teamIDs) && |teamIDs| >= 2 && |teamIDs| % 2 != 0
  }

  /** Where a team stands in the list. */
  ghost function Position(teamIDs: seq<int>, team: int): (p: nat)
    requires team in teamIDs
    ensures p < |teamIDs| && teamIDs[p] == team
  {
    var p :| 0 <= p < |teamIDs| && teamIDs[p] == team;
    p
  }

  /** The week of a single pass in which a team draws the bye. */
  ghost function ByeWeek(teamIDs: seq<int>, team: int): (week: int)
    requires OddLeague(teamIDs) && team in teamIDs
    ensures 1 <= week <= |teamIDs|
  {
    IdleWeek(teamIDs, Position(teamIDs, team))
  }

  lemma DrawsInByeWeek(teamIDs: seq<int>, team: int, week: int)
    requires OddLeague(teamIDs)
    ensures DrawsBye(teamIDs, week, team) <==> team in teamIDs && week == ByeWeek(teamIDs, team)
  {
    if team in teamIDs && 1 <= week <= |teamIDs| {
      var p := Position(teamIDs, team);
      IdleWeeksAndTeamsMatch(teamIDs, p, week);
      SameTeam(teamIDs, IdleTeam(teamIDs, week), p);
    }
  }

  lemma ByeWeeksDiffer(teamIDs: seq<int>, t: int, u: int)
    requires OddLeague(teamIDs) && t in teamIDs && u in teamIDs && t != u
    ensures ByeWeek(teamIDs, t) != ByeWeek(teamIDs, u)
  {
    DrawsInByeWeek(teamIDs, t, ByeWeek(teamIDs, t));
    DrawsInByeWeek(teamIDs, u, ByeWeek(teamIDs, t));
    hide ByeWeek;
  }

  lemma IdleInPass(teamIDs: seq<int>, week: int, team: int)
    requires OddLeague(teamIDs)
    ensures Idle(Rotation(teamIDs), week, team) <==> team in teamIDs && week == ByeWeek(teamIDs, team)
  {
    assert ValidIDs(teamIDs) && |teamIDs| >= 2 && |teamIDs| % 2 != 0;
    hide *;
    RotationIdle(teamIDs, week, team);
    DrawsInByeWeek(teamIDs, team, week);
  }

  lemma IdleHomeAndAway(teamIDs: seq<int>, week: int, team: int)
    requires OddLeague(teamIDs)
    ensures Idle(HomeAndAway(teamIDs), week, team) <==>
            team in teamIDs && (week == ByeWeek(teamIDs, team) || week == ByeWeek(teamIDs, team) + |teamIDs|)
  {
    hide *;
    DrawsInByeWeek(teamIDs, team, week);
    DrawsInByeWeek(teamIDs, team, week - |teamIDs|);
    IdleInEitherHalf(teamIDs, week, team);
  }

  lemma IdleInEitherHalf(teamIDs: seq<int>, week: int, team: int)
    requires OddLeague(teamIDs)
    ensures Idle(HomeAndAway(teamIDs), week, team) <==>
            DrawsBye(teamIDs, week, team) || DrawsBye(teamIDs, week - |teamIDs|, team)
  {
    hide Idle, HomeAndAway, DrawsBye;
    HomeAndAwayIdle(teamIDs, week, team);
  }

  /** In a single pass every team of the league has a bye, one only, and no two share a week. */
  lemma ByesOfPass(teamIDs: seq<int>)
    requires OddLeague(teamIDs)
    ensures OneIdleTeam(Rotation(teamIDs))
    ensures forall t :: HasBye(Rotation(teamIDs), t) <==> t in teamIDs
    ensures forall t :: !IdleTwice(Rotation(teamIDs), t)
  {
    hide Idle, Rotation, ByeWeek;
    var es := Rotation(teamIDs);
    forall w, t, u | Idle(es, w, t) && Idle(es, w, u)
      ensures t == u
    {
      IdleInPass(teamIDs, w, t);
      IdleInPass(teamIDs, w, u);
      if t != u {
        ByeWeeksDiffer(teamIDs, t, u);
      }
    }
    forall t
      ensures HasBye(es, t) <==> t in teamIDs
      ensures !IdleTwice(es, t)
    {
      forall w
        ensures Idle(es, w, t) <==> t in teamIDs && w == ByeWeek(teamIDs, t)
      {
        IdleInPass(teamIDs, w, t);
      }
      assert t in teamIDs ==> Idle(es, ByeWeek(teamIDs, t), t);
    }
  }

  /** Home and away, every team of the league has two byes, and still no two share a week. */
  lemma ByesOfHomeAndAway(teamIDs: seq<int>)
    requires OddLeague(teamIDs)
    ensures OneIdleTeam(HomeAndAway(teamIDs))
    ensures forall t :: HasBye(HomeAndAway(teamIDs), t) <==> t in teamIDs
    ensures forall t :: IdleTwice(HomeAndAway(teamIDs), t) <==> t in teamIDs
  {
    hide Idle, HomeAndAway, ByeWeek;
    var es := HomeAndAway(teamIDs);
    forall w, t, u | Idle(es, w, t) && Idle(es, w, u)
      ensures t == u
    {
      IdleHomeAndAway(teamIDs, w, t);
      IdleHomeAndAway(teamIDs, w, u);
      if t != u {
        ByeWeeksDiffer(teamIDs, t, u);
      }
    }
    forall t
      ensures HasBye(es, t) <==> t in teamIDs
      ensures IdleTwice(es, t) <==> t in teamIDs
    {
      forall w
        ensures Idle(es, w, t) <==> t in teamIDs && (w == ByeWeek(teamIDs, t) || w == ByeWeek(teamIDs, t) + |teamIDs|)
      {
        IdleHomeAndAway(teamIDs, w, t);
      }
      if t in teamIDs {
        var v, w := ByeWeek(teamIDs, t), ByeWeek(teamIDs, t) + |teamIDs|;
        assert v != w && Idle(es, v, t) && Idle(es, w, t);
      }
    }
  }

  // ---- Panics and iteration orders -----------------------------------------------------------------

  /** The requests of the given teams for the first so many weeks. */
  ghost function RequestsWithin(teams: set<int>, last: int, bye: map<int, int>): set<int> {
    set w | w in bye && bye[w] in teams && 1 <= w <= last
  }

  /** Which of the given teams make requests. */
  ghost function Requesting(teams: set<int>, bye: map<int, int>): set<int> {
    set w | w in bye && bye[w] in teams :: bye[w]
  }

  lemma TooFewWeeksMeans(es: seq<ScheduleEntry>, teams: set<int>, last: int, bye: map<int, int>)
    requires forall t :: HasBye(es, t) <==> t in teams
    requires forall w :: w in Weeks(es) <==> 1 <= w <= last
    ensures TooFewWeeks(es, bye) <==> |RequestsWithin(teams, last, bye)| < |Requesting(teams, bye)|
  {
    hide Weeks, HasBye;
    var ws := RequestedWeeks(es, bye);
    forall w
      ensures w in ws * Weeks(es) <==> w in RequestsWithin(teams, last, bye)
    {
    }
    SameElements(ws * Weeks(es), RequestsWithin(teams, last, bye));
    forall t
      ensures t in HonouredTeams(ws, bye) <==> t in Requesting(teams, bye)
    {
    }
    SameElements(HonouredTeams(ws, bye), Requesting(teams, bye));
  }

  ghost function TeamSet(teamIDs: seq<int>): set<int> {
    set t | t in teamIDs
  }

  /**
   Main result: in a single pass of an odd league, a request map makes the program panic exactly
   when it asks for fewer existing weeks than it names teams of the league, and the iteration
   order never matters.
   */
  lemma RequestsInPass(teamIDs: seq<int>, natural: map<int, int>, bye: map<int, int>)
    requires OddLeague(teamIDs) && IsNaturalByes(Rotation(teamIDs), natural)
    ensures Reorder(Rotation(teamIDs), natural, bye) == None <==>
            |RequestsWithin(TeamSet(teamIDs), |teamIDs|, bye)| < |Requesting(TeamSet(teamIDs), bye)|
    ensures !OrderMatters(Rotation(teamIDs), bye)
  {
    ByesOfPass(teamIDs);
    HomeAndAwayOfOddLeague(teamIDs);
    hide Rotation, Weeks, IsNaturalByes, OneIdleTeam, HasBye, TooFewWeeks, IdleTwice, Reorder, OrderMatters, RequestsWithin, Requesting, OddLeague;
    TooFewWeeksMeans(Rotation(teamIDs), TeamSet(teamIDs), |teamIDs|, bye);
    PanicsExactlyWhen(Rotation(teamIDs), natural, bye);
    OrderMattersExactlyWhen(Rotation(teamIDs), bye);
  }

  /**
   Main result: home and away in an odd league, the same holds of the panic over twice as many
   weeks, and the iteration order matters exactly when the program does not panic and some request
   names a team of the league.
   */
  lemma RequestsHomeAndAway(teamIDs: seq<int>, natural: map<int, int>, bye: map<int, int>)
    requires OddLeague(teamIDs) && IsNaturalByes(HomeAndAway(teamIDs), natural)
    ensures var panics := |RequestsWithin(TeamSet(teamIDs), 2 * |teamIDs|, bye)| < |Requesting(TeamSet(teamIDs), bye)|;
            && (Reorder(HomeAndAway(teamIDs), natural, bye) == None <==> panics)
            && (OrderMatters(HomeAndAway(teamIDs), bye) <==> !panics && exists w :: w in bye && bye[w] in teamIDs)
  {
    ByesOfHomeAndAway(teamIDs);
    HomeAndAwayWeeks(teamIDs);
    hide HomeAndAway, Weeks, IsNaturalByes, OneIdleTeam, HasBye, TooFewWeeks, IdleTwice, Reorder, OrderMatters, RequestsWithin, Requesting, OddLeague;
    TooFewWeeksMeans(HomeAndAway(teamIDs), TeamSet(teamIDs), 2 * |teamIDs|, bye);
    PanicsExactlyWhen(HomeAndAway(teamIDs), natural, bye);
    OrderMattersExactlyWhen(HomeAndAway(teamIDs), bye);
  }

  // ---- Granting requests in a single pass ----------------------------------------------------------

  /** No team of the league is named twice. */
  ghost predicate NamedOnce(teamIDs: seq<int>, bye: map<int, int>) {
    forall v, w :: v in bye && w in bye && v != w && bye[v] in teamIDs ==> bye[v] != bye[w]
  }

  lemma HonouredInLeague(es: seq<ScheduleEntry>, teamIDs: seq<int>, natural: map<int, int>, bye: map<int, int>, last: int)
    requires IsNaturalByes(es, natural) && OneIdleTeam(es)
    requires forall t :: HasBye(es, t) <==> t in teamIDs
    requires forall w :: w in Weeks(es) <==> 1 <= w <= last
    requires forall w :: w in bye && bye[w] in teamIDs ==> 1 <= w <= last
    ensures Honoured(natural, bye) <= Weeks(es)
    ensures forall w :: w in Honoured(natural, bye) <==> w in bye && bye[w] in teamIDs
    ensures Sensible(es, natural, bye) <==> NamedOnce(teamIDs, bye)
  {
    HonouredAre(es, natural, bye);
    hide Weeks, HasBye, IsNaturalByes, OneIdleTeam, Honoured;
    forall w
      ensures w in Honoured(natural, bye) <==> w in bye && bye[w] in teamIDs
    {
      assert w in RequestedWeeks(es, bye) <==> w in bye && HasBye(es, bye[w]);
    }
    forall w | w in Honoured(natural, bye)
      ensures w in Weeks(es)
    {
    }
  }

  /**
   Main result: in a single pass of an odd league, and for requests of existing weeks, all of them
   are granted, with every week kept, exactly when no team of the league is named twice.
   */
  lemma SingleRoundRobinByes(teamIDs: seq<int>, natural: map<int, int>, bye: map<int, int>)
    requires OddLeague(teamIDs) && IsNaturalByes(Rotation(teamIDs), natural)
    requires forall w :: w in bye && bye[w] in teamIDs ==> 1 <= w <= |teamIDs|
    ensures forall other :: IsNaturalByes(Rotation(teamIDs), other) ==> other == natural
    ensures AllGranted(Rotation(teamIDs), natural, bye) <==> NamedOnce(teamIDs, bye)
  {
    var es := Rotation(teamIDs);
    ByesOfPass(teamIDs);
    HomeAndAwayOfOddLeague(teamIDs);
    OncePerTeam(es);
    hide Rotation, IsNaturalByes, Idle, Weeks, AllGranted, Honoured, HasBye, NamedOnce, Sensible;
    forall other | IsNaturalByes(es, other)
      ensures other == natural
    {
      NaturalByesAreUnique(es, other, natural);
    }
    HonouredInLeague(es, teamIDs, natural, bye, |teamIDs|);
    GrantedExactlyWhenDistinct(es, natural, bye);
  }

  lemma OncePerTeam(es: seq<ScheduleEntry>)
    requires forall t :: !IdleTwice(es, t)
    ensures forall v, w, t :: Idle(es, v, t) && Idle(es, w, t) ==> v == w
  {
    hide Idle;
    forall v, w, t | Idle(es, v, t) && Idle(es, w, t)
      ensures v == w
    {
      assert !IdleTwice(es, t);
    }
  }

  // ---- Keeping teams to one match a week, home and away -------------------------------------------

  /** With one team off a week, any two weeks share a third team. */
  lemma OneOffStillShares(es: seq<ScheduleEntry>, a: int, b: int, c: int)
    requires OneIdleTeam(es) && a in AllTeams(es) && b in AllTeams(es) && c in AllTeams(es)
    requires a != b && a != c && b != c
    ensures WeeksShareTeams(es)
  {
    forall v, w | v in Weeks(es) && w in Weeks(es) && v != w
      ensures ShareATeam(es, v, w)
    {
      hide OneIdleTeam;
      var t := if !Idle(es, v, a) && !Idle(es, w, a) then a else if !Idle(es, v, b) && !Idle(es, w, b) then b else c;
      hide Idle, AllTeams, Weeks;
      ThirdTeamPlays(es, v, w, a, b, c);
      PlaysUnlessIdle(es, v, t);
      PlaysUnlessIdle(es, w, t);
      TeamInUse(es, t);
    }
  }

  lemma ThirdTeamPlays(es: seq<ScheduleEntry>, v: int, w: int, a: int, b: int, c: int)
    requires OneIdleTeam(es) && a != b && a != c && b != c
    ensures (!Idle(es, v, a) && !Idle(es, w, a)) || (!Idle(es, v, b) && !Idle(es, w, b)) || (!Idle(es, v, c) && !Idle(es, w, c))
  {
    hide Idle;
  }

  lemma PlaysUnlessIdle(es: seq<ScheduleEntry>, week: int, team: int)
    requires week in Weeks(es) && team in AllTeams(es) && !Idle(es, week, team)
    ensures Plays(es, week, team) >= 1
  {
    NotPlayingIsNoMatch(es, week, team);
    hide Weeks, AllTeams, PlayingTeams, Plays;
  }

  lemma HomeAndAwayShares(teamIDs: seq<int>)
    requires OddLeague(teamIDs)
    ensures WeeksShareTeams(HomeAndAway(teamIDs))
  {
    ByesOfHomeAndAway(teamIDs);
    assert |teamIDs| >= 3;
    var a, b, c := teamIDs[0], teamIDs[1], teamIDs[2];
    assert HasBye(HomeAndAway(teamIDs), a) && HasBye(HomeAndAway(teamIDs), b) && HasBye(HomeAndAway(teamIDs), c);
    hide HomeAndAway, OneIdleTeam, WeeksShareTeams, Weeks, AllTeams, PlayingTeams;
    ByeIsTeam(HomeAndAway(teamIDs), a);
    ByeIsTeam(HomeAndAway(teamIDs), b);
    ByeIsTeam(HomeAndAway(teamIDs), c);
    hide HasBye;
    OneOffStillShares(HomeAndAway(teamIDs), a, b, c);
  }

  lemma ByeIsTeam(es: seq<ScheduleEntry>, team: int)
    requires HasBye(es, team)
    ensures team in AllTeams(es)
  {
  }

  /** The order that leaves every team its bye of the first half. */
  ghost function FirstHalfByes(teamIDs: seq<int>): map<int, int>
    requires OddLeague(teamIDs)
  {
    map t | t in teamIDs :: ByeWeek(teamIDs, t)
  }

  lemma FirstHalfAt(teamIDs: seq<int>, team: int)
    requires OddLeague(teamIDs)
    ensures team in FirstHalfByes(teamIDs) <==> team in teamIDs
    ensures team in teamIDs ==> FirstHalfByes(teamIDs)[team] == ByeWeek(teamIDs, team)
  {
    hide ByeWeek;
  }

  lemma FirstHalfIsNatural(teamIDs: seq<int>)
    requires OddLeague(teamIDs)
    ensures IsNaturalByes(HomeAndAway(teamIDs), FirstHalfByes(teamIDs))
  {
    assert |teamIDs| >= 2;
    hide *;
    var es, natural := HomeAndAway(teamIDs), FirstHalfByes(teamIDs);
    forall t | t in natural
      ensures Idle(es, natural[t], t)
    {
      FirstHalfAt(teamIDs, t);
      IdleHomeAndAway(teamIDs, natural[t], t);
    }
    forall t, u | t in natural && u in natural && t != u
      ensures natural[t] != natural[u]
    {
      FirstHalfAt(teamIDs, t);
      FirstHalfAt(teamIDs, u);
      ByeWeeksDiffer(teamIDs, t, u);
    }
    forall w, t | Idle(es, w, t)
      ensures exists u :: u in natural && Idle(es, w, u)
    {
      IdleHomeAndAway(teamIDs, w, t);
      FirstHalfAt(teamIDs, t);
      assert t in natural;
    }
    NaturalIs(es, natural);
  }

  lemma NaturalIs(es: seq<ScheduleEntry>, natural: map<int, int>)
    requires forall t :: t in natural ==> Idle(es, natural[t], t)
    requires forall t, u :: t in natural && u in natural && t != u ==> natural[t] != natural[u]
    requires forall w, t :: Idle(es, w, t) ==> exists u :: u in natural && Idle(es, w, u)
    ensures IsNaturalByes(es, natural)
  {
    hide Idle;
  }

  /** Under that order the last week of the season is never claimed. */
  lemma LastWeekUnclaimed(teamIDs: seq<int>, bye: map<int, int>)
    requires OddLeague(teamIDs)
    ensures var natural, es := FirstHalfByes(teamIDs), HomeAndAway(teamIDs);
            var src := Sources(es, natural, bye);
            src != [] && src[|src| - 1] == 2 * |teamIDs|
  {
    var natural, es, last := FirstHalfByes(teamIDs), HomeAndAway(teamIDs), 2 * |teamIDs|;
    hide *;
    var claims := Claims(Ordered(bye.Keys), natural, bye);
    FirstHalfIsNatural(teamIDs);
    HomeAndAwayWeeks(teamIDs);
    SourceMembers(es, natural, bye);
    if last in claims {
      var t := ClaimHasTeam(es, natural, bye, last);
      FirstHalfAt(teamIDs, t);
      assert false;
    }
    assert last in Sources(es, natural, bye);
    LastIsLast(Sources(es, natural, bye), last);
  }

  lemma ClaimHasTeam(es: seq<ScheduleEntry>, natural: map<int, int>, bye: map<int, int>, week: int) returns (team: int)
    requires IsNaturalByes(es, natural) && week in Claims(Ordered(bye.Keys), natural, bye)
    ensures team in natural && natural[team] == week
  {
    ClaimedWeeks(es, natural, bye);
    hide Claims, Ordered, Weeks, IsNaturalByes;
    team := bye[Claims(Ordered(bye.Keys), natural, bye)[week]];
  }

  lemma LastIsLast(s: seq<int>, last: int)
    requires Ascending(s) && last in s && forall x :: x in s ==> x <= last
    ensures s != [] && s[|s| - 1] == last
  {
    var i :| 0 <= i < |s| && s[i] == last;
    assert s[|s| - 1] in s;
  }

  /** If two requests name one team, that order throws two weeks together. */
  lemma FirstHalfDoesNotFit(teamIDs: seq<int>, bye: map<int, int>)
    requires OddLeague(teamIDs) && !NamedOnce(teamIDs, bye)
    requires forall w :: w in bye && bye[w] in teamIDs ==> 1 <= w <= 2 * |teamIDs|
    ensures IsNaturalByes(HomeAndAway(teamIDs), FirstHalfByes(teamIDs))
    ensures !Fits(HomeAndAway(teamIDs), FirstHalfByes(teamIDs), bye)
  {
    var natural, es, last := FirstHalfByes(teamIDs), HomeAndAway(teamIDs), 2 * |teamIDs|;
    hide *;
    FirstHalfIsNatural(teamIDs);
    LastWeekUnclaimed(teamIDs, bye);
    MoreSourcesThanFree(teamIDs, natural, bye);
    var src, dst := Sources(es, natural, bye), Destinations(es, natural, bye);
    FitsIs(es, natural, bye);
    if Fits(es, natural, bye) {
      assert src[|src| - 1] in Honoured(natural, bye);
      LastWeekIsLastRequest(teamIDs, natural, bye);
      assert false;
    }
  }

  /** A request for the last week of the season is its team's last, so a bye is moved there. */
  lemma LastWeekIsLastRequest(teamIDs: seq<int>, natural: map<int, int>, bye: map<int, int>)
    requires OddLeague(teamIDs) && IsNaturalByes(HomeAndAway(teamIDs), natural)
    requires forall w :: w in bye && bye[w] in teamIDs ==> 1 <= w <= 2 * |teamIDs|
    requires 2 * |teamIDs| in Honoured(natural, bye)
    ensures Reached(Claims(Ordered(bye.Keys), natural, bye), 2 * |teamIDs|)
  {
    var last := 2 * |teamIDs|;
    ByesOfHomeAndAway(teamIDs);
    HomeAndAwayWeeks(teamIDs);
    hide HomeAndAway, Idle, IsNaturalByes, OneIdleTeam, HasBye, Claims, Ordered, Weeks, OddLeague;
    HonouredInLeague(HomeAndAway(teamIDs), teamIDs, natural, bye, last);
    var team := bye[last];
    assert last in RequestsOf(bye, team) && team in natural;
    LastRequestCounts(HomeAndAway(teamIDs), natural, bye, team);
    var to := Claims(Ordered(bye.Keys), natural, bye)[natural[team]];
    assert last <= to;
    assert to in RequestsOf(bye, team);
    assert to == last;
  }

  lemma MoreSourcesThanFree(teamIDs: seq<int>, natural: map<int, int>, bye: map<int, int>)
    requires OddLeague(teamIDs) && !NamedOnce(teamIDs, bye) && IsNaturalByes(HomeAndAway(teamIDs), natural)
    requires forall w :: w in bye && bye[w] in teamIDs ==> 1 <= w <= 2 * |teamIDs|
    ensures |Sources(HomeAndAway(teamIDs), natural, bye)| > |Destinations(HomeAndAway(teamIDs), natural, bye)|
  {
    var es := HomeAndAway(teamIDs);
    ByesOfHomeAndAway(teamIDs);
    HomeAndAwayWeeks(teamIDs);
    hide *;
    HonouredInLeague(es, teamIDs, natural, bye, 2 * |teamIDs|);
    RemainingCounts(es, natural, bye);
    SharedTeamCount(natural, bye, teamIDs);
    InsideAll(Honoured(natural, bye), Weeks(es));
  }

  lemma SharedTeamCount(natural: map<int, int>, bye: map<int, int>, teamIDs: seq<int>)
    requires !NamedOnce(teamIDs, bye)
    requires forall w :: w in Honoured(natural, bye) <==> w in bye && bye[w] in teamIDs
    ensures |HonouredTeams(Honoured(natural, bye), bye)| < |Honoured(natural, bye)|
  {
    var v, w :| v in bye && w in bye && v != w && bye[v] in teamIDs && bye[v] == bye[w];
    var ws := Honoured(natural, bye);
    assert v in ws && w in ws;
    var m := map x | x in ws :: bye[x];
    assert m.Keys == ws;
    hide Honoured;
    assert Image(m) == HonouredTeams(ws, bye);
    ImageIsSmaller(m, v, w);
  }

  /**
   Main result: home and away in an odd league, with requests of league teams for existing weeks
   only, the following are the same: no team is named twice; under every iteration order no team
   plays twice in a week; under every iteration order all requests are granted and all weeks kept.
   */
  lemma OneMatchAWeekExactlyWhenNamedOnce(teamIDs: seq<int>, bye: map<int, int>)
    requires OddLeague(teamIDs)
    requires forall w :: w in bye && bye[w] in teamIDs ==> 1 <= w <= 2 * |teamIDs|
    ensures forall natural :: IsNaturalByes(HomeAndAway(teamIDs), natural) ==> Reorder(HomeAndAway(teamIDs), natural, bye).Some?
    ensures NamedOnce(teamIDs, bye) <==>
            forall natural :: IsNaturalByes(HomeAndAway(teamIDs), natural) ==> IsWeeklyMatching(Reorder(HomeAndAway(teamIDs), natural, bye).value)
    ensures NamedOnce(teamIDs, bye) <==>
            forall natural :: IsNaturalByes(HomeAndAway(teamIDs), natural) ==> AllGranted(HomeAndAway(teamIDs), natural, bye)
  {
    var es, last := HomeAndAway(teamIDs), 2 * |teamIDs|;
    ByesOfHomeAndAway(teamIDs);
    HomeAndAwayWeeks(teamIDs);
    HomeAndAwayIsWeeklyMatching(teamIDs);
    HomeAndAwayShares(teamIDs);
    hide *;
    forall natural | IsNaturalByes(es, natural)
      ensures Reorder(es, natural, bye).Some?
      ensures NamedOnce(teamIDs, bye) ==> IsWeeklyMatching(Reorder(es, natural, bye).value) && AllGranted(es, natural, bye)
    {
      HonouredInLeague(es, teamIDs, natural, bye, last);
      ExistingWeeksDoNotPanic(es, natural, bye);
      ReorderExists(es, natural, bye);
      if NamedOnce(teamIDs, bye) {
        GrantedWhenDistinct(es, natural, bye);
        GrantedFits(es, natural, bye);
        FittingKeepsMatching(es, natural, bye);
      }
    }
    if !NamedOnce(teamIDs, bye) {
      var natural := FirstHalfByes(teamIDs);
      FirstHalfDoesNotFit(teamIDs, bye);
      ReorderExists(es, natural, bye);
      MatchingKeptExactlyWhen(es, natural, bye);
      if AllGranted(es, natural, bye) {
        GrantedFits(es, natural, bye);
        assert false;
      }
    }
  }

  lemma GrantedFits(es: seq<ScheduleEntry>, natural: map<int, int>, bye: map<int, int>)
    requires IsNaturalByes(es, natural) && AllGranted(es, natural, bye)
    ensures !Overruns(es, natural, bye) && Fits(es, natural, bye)
  {
    hide Fits, Weeks, Remap, Overruns, Moved, IsNaturalByes;
    KeptWeeksFit(es, natural, bye);
  }

  /** As many weeks as requests are at least as many as teams. */
  lemma ExistingWeeksDoNotPanic(es: seq<ScheduleEntry>, natural: map<int, int>, bye: map<int, int>)
    requires IsNaturalByes(es, natural) && Honoured(natural, bye) <= Weeks(es)
    ensures !Overruns(es, natural, bye)
  {
    hide *;
    RemainingCounts(es, natural, bye);
    InsideAll(Honoured(natural, bye), Weeks(es));
    HonouredAreRequests(natural, bye);
    TeamsAtMostWeeks(Honoured(natural, bye), bye);
    OverrunsIs(es, natural, bye);
  }

  lemma TeamsAtMostWeeks(ws: set<int>, bye: map<int, int>)
    requires ws <= bye.Keys
    ensures |HonouredTeams(ws, bye)| <= |ws|
  {
    var m := map x | x in ws :: bye[x];
    assert m.Keys == ws && Image(m) == HonouredTeams(ws, bye);
    ImageIsNoLarger(m);
  }
}
