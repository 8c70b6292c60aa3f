/**
 Bye requests in custom schedules of an odd league: the home-and-away cycle cut after, or repeated
 up to, a given number of weeks. How long the season is decides who has a bye, and who has two.
 */
module CustomByes {
  import opened Prelude
  import opened Schedule
  import opened RoundRobin
  import opened CircleMethod
  import opened ByeRequests
  import opened ByeProperties
  import opened ByeOutcomes
  import opened ByeMatching
  import opened Generators
  import opened ScheduleTheorems
  import opened LeagueByes

  ghost function Custom(teamIDs: seq<int>, numWeeks: nat): seq<ScheduleEntry>
    requires |teamIDs| >= 2
  {
    Periodic(HomeAndAway(teamIDs), numWeeks)
  }

  // ---- Who plays in which week -----------------------------------------------------------------

  lemma WeekIffPlays(es: seq<ScheduleEntry>, week: int)
    ensures week in Weeks(es) <==> exists t :: Plays(es, week, t) > 0
  {
    WeekInUse(es, week);
    hide Weeks;
    if i :| 0 <= i < |es| && es[i].week == week {
      CountZero(es, PlayingIn(week, es[i].home));
      assert Plays(es, week, es[i].home) > 0;
    }
    if t :| Plays(es, week, t) > 0 {
      CountZero(es, PlayingIn(week, t));
    }
  }

  lemma TeamIffPlays(es: seq<ScheduleEntry>, team: int)
    ensures team in AllTeams(es) <==> team != BYE && exists w :: Plays(es, w, team) > 0
  {
    TeamInUse(es, team);
    hide AllTeams;
    if i :| 0 <= i < |es| && Involves(es[i], team) {
      CountZero(es, PlayingIn(es[i].week, team));
      assert Plays(es, es[i].week, team) > 0;
    }
    if w :| Plays(es, w, team) > 0 {
      CountZero(es, PlayingIn(w, team));
    }
  }

  lemma CycleLength(teamIDs: seq<int>)
    requires OddLeague(teamIDs)
    ensures MaxWeek(HomeAndAway(teamIDs)) == 2 * |teamIDs| && HomeAndAway(teamIDs) != []
    ensures forall i :: 0 <= i < |HomeAndAway(teamIDs)| ==> HomeAndAway(teamIDs)[i].week >= 1
  {
    var es := HomeAndAway(teamIDs);
    HomeAndAwayWeeks(teamIDs);
    HomeAndAwayInOrder(teamIDs);
    hide HomeAndAway, MaxWeek;
    assert 2 * |teamIDs| in Weeks(es);
    assert forall i :: 0 <= i < |es| ==> es[i].week in Weeks(es);
    MaxWeekIsMax(es, 2 * |teamIDs|);
  }

  lemma MaxWeekIsMax(es: seq<ScheduleEntry>, last: int)
    requires last >= 0 && last in Weeks(es) && forall i :: 0 <= i < |es| ==> es[i].week <= last
    ensures MaxWeek(es) == last
  {
    hide MaxWeek;
  }

  /** In week w a team plays as it does in the week of the cycle that w repeats. */
  lemma CustomPlays(teamIDs: seq<int>, numWeeks: nat, week: int, team: int)
    requires OddLeague(teamIDs)
    ensures Plays(Custom(teamIDs, numWeeks), week, team) ==
            if 1 <= week <= numWeeks then Plays(HomeAndAway(teamIDs), WeekInCycle(week, 2 * |teamIDs|), team) else 0
  {
    CycleLength(teamIDs);
    hide HomeAndAway, Periodic, MaxWeek, WeekInCycle, Plays;
    CustomScheduleIsPeriodic(HomeAndAway(teamIDs), numWeeks, 0, 0, team, week);
  }

  lemma InCycle(week: int, cycle: nat)
    requires cycle >= 1
    ensures 1 <= WeekInCycle(week, cycle) <= cycle
    ensures 1 <= week <= cycle ==> WeekInCycle(week, cycle) == week
  {
  }

  lemma CustomWeeks(teamIDs: seq<int>, numWeeks: nat, week: int)
    requires OddLeague(teamIDs)
    ensures week in Weeks(Custom(teamIDs, numWeeks)) <==> 1 <= week <= numWeeks
  {
    var es, base, inCycle := Custom(teamIDs, numWeeks), HomeAndAway(teamIDs), WeekInCycle(week, 2 * |teamIDs|);
    WeekIffPlays(es, week);
    WeekIffPlays(base, inCycle);
    HomeAndAwayWeeks(teamIDs);
    InCycle(week, 2 * |teamIDs|);
    hide Custom, HomeAndAway, Weeks, Plays, WeekInCycle;
    forall t
      ensures Plays(es, week, t) == if 1 <= week <= numWeeks then Plays(base, inCycle, t) else 0
    {
      CustomPlays(teamIDs, numWeeks, week, t);
    }
    assert 1 <= week <= numWeeks ==> inCycle in Weeks(base);
  }

  lemma LeagueTeams(teamIDs: seq<int>, team: int)
    requires OddLeague(teamIDs)
    ensures team in AllTeams(HomeAndAway(teamIDs)) <==> team in teamIDs
  {
    HomeAndAwayOfOddLeague(teamIDs);
    RotationTeams(teamIDs);
    MirroredTeams(Rotation(teamIDs), |teamIDs|, team);
    hide Rotation, HomeAndAway, AllTeams, Mirrored;
  }

  /** From two weeks on, every team of the league has played. */
  lemma CustomTeams(teamIDs: seq<int>, numWeeks: nat, team: int)
    requires OddLeague(teamIDs) && numWeeks >= 2
    ensures team in AllTeams(Custom(teamIDs, numWeeks)) <==> team in teamIDs
  {
    var es, base := Custom(teamIDs, numWeeks), HomeAndAway(teamIDs);
    TeamIffPlays(es, team);
    TeamIffPlays(base, team);
    LeagueTeams(teamIDs, team);
    assert |teamIDs| >= 3;
    hide Custom, HomeAndAway, AllTeams, Plays, WeekInCycle, OddLeague;
    if team in AllTeams(es) {
      var w :| Plays(es, w, team) > 0;
      CustomPlays(teamIDs, numWeeks, w, team);
    }
    if team in teamIDs {
      var w := PlaysEarly(teamIDs, team);
      InCycle(w, 2 * |teamIDs|);
      CustomPlays(teamIDs, numWeeks, w, team);
    }
  }

  /** A team with a bye in the first week plays in the second. */
  lemma PlaysEarly(teamIDs: seq<int>, team: int) returns (week: int)
    requires OddLeague(teamIDs) && team in teamIDs
    ensures 1 <= week <= 2 && Plays(HomeAndAway(teamIDs), week, team) > 0
  {
    assert |teamIDs| >= 3;
    LeagueTeams(teamIDs, team);
    HomeAndAwayWeeks(teamIDs);
    hide HomeAndAway, AllTeams, Plays, Weeks, Idle, ByeWeek;
    week := if ByeWeek(teamIDs, team) == 1 then 2 else 1;
    IdleHomeAndAway(teamIDs, week, team);
    PlaysUnlessIdle(HomeAndAway(teamIDs), week, team);
  }

  // ---- Who is idle when ----------------------------------------------------------------------------

  lemma IdleIs(es: seq<ScheduleEntry>, week: int, team: int)
    ensures Idle(es, week, team) <==> week in Weeks(es) && team in AllTeams(es) && Plays(es, week, team) == 0
  {
    NotPlayingIsNoMatch(es, week, team);
    hide Weeks, AllTeams, PlayingTeams, Plays;
  }

  /** From two weeks on, who is idle repeats with the cycle. */
  lemma IdleInCustom(teamIDs: seq<int>, numWeeks: nat, week: int, team: int)
    requires OddLeague(teamIDs) && numWeeks >= 2
    ensures Idle(Custom(teamIDs, numWeeks), week, team) <==>
            1 <= week <= numWeeks && Idle(HomeAndAway(teamIDs), WeekInCycle(week, 2 * |teamIDs|), team)
  {
    var es, base, inCycle := Custom(teamIDs, numWeeks), HomeAndAway(teamIDs), WeekInCycle(week, 2 * |teamIDs|);
    IdleIs(es, week, team);
    IdleIs(base, inCycle, team);
    CustomWeeks(teamIDs, numWeeks, week);
    HomeAndAwayWeeks(teamIDs);
    InCycle(week, 2 * |teamIDs|);
    hide Custom, HomeAndAway, Weeks, AllTeams, Plays, WeekInCycle, Idle, OddLeague;
    CustomPlays(teamIDs, numWeeks, week, team);
    CustomTeams(teamIDs, numWeeks, team);
    LeagueTeams(teamIDs, team);
  }

  /** In a season of one week nobody who plays at all is ever idle. */
  lemma NobodyIdleInOneWeek(teamIDs: seq<int>, numWeeks: nat, week: int, team: int)
    requires OddLeague(teamIDs) && numWeeks <= 1
    ensures !Idle(Custom(teamIDs, numWeeks), week, team)
  {
    assert |teamIDs| >= 2;
    hide *;
    var es := Custom(teamIDs, numWeeks);
    IdleIs(es, week, team);
    CustomWeeks(teamIDs, numWeeks, week);
    if week in Weeks(es) && team in AllTeams(es) {
      var w := PlaysSomeWeek(teamIDs, numWeeks, team);
      assert w == week;
    }
  }

  lemma PlaysSomeWeek(teamIDs: seq<int>, numWeeks: nat, team: int) returns (week: int)
    requires OddLeague(teamIDs) && team in AllTeams(Custom(teamIDs, numWeeks))
    ensures 1 <= week <= numWeeks && Plays(Custom(teamIDs, numWeeks), week, team) > 0
  {
    TeamIffPlays(Custom(teamIDs, numWeeks), team);
    hide Custom, Idle, Weeks, AllTeams, Plays, WeekInCycle, HomeAndAway, OddLeague;
    week :| Plays(Custom(teamIDs, numWeeks), week, team) > 0;
    CustomPlays(teamIDs, numWeeks, week, team);
  }

  /** A team's idle weeks are its bye week, half a cycle later, and later ones. */
  lemma IdleWeeksOfTeam(teamIDs: seq<int>, numWeeks: nat, week: int, team: int)
    requires OddLeague(teamIDs)
    ensures Idle(Custom(teamIDs, numWeeks), week, team) ==>
              && numWeeks >= 2 && 1 <= week <= numWeeks && team in teamIDs
              && (week == ByeWeek(teamIDs, team) || week >= ByeWeek(teamIDs, team) + |teamIDs|)
    ensures numWeeks >= 2 && team in teamIDs && 1 <= week <= numWeeks
            && (week == ByeWeek(teamIDs, team) || week == ByeWeek(teamIDs, team) + |teamIDs|) ==>
              Idle(Custom(teamIDs, numWeeks), week, team)
  {
    hide Idle, Custom, HomeAndAway, ByeWeek, WeekInCycle;
    if numWeeks <= 1 {
      NobodyIdleInOneWeek(teamIDs, numWeeks, week, team);
    } else {
      IdleInCustom(teamIDs, numWeeks, week, team);
      IdleHomeAndAway(teamIDs, WeekInCycle(week, 2 * |teamIDs|), team);
      InCycle(week, 2 * |teamIDs|);
    }
  }

  /** The teams whose bye falls within the season. */
  ghost function TeamsWithBye(teamIDs: seq<int>, numWeeks: nat): set<int>
    requires OddLeague(teamIDs)
  {
    set t | t in teamIDs && numWeeks >= 2 && ByeWeek(teamIDs, t) <= numWeeks
  }

  lemma ByesOfCustom(teamIDs: seq<int>, numWeeks: nat)
    requires OddLeague(teamIDs)
    ensures OneIdleTeam(Custom(teamIDs, numWeeks))
    ensures forall t :: HasBye(Custom(teamIDs, numWeeks), t) <==> t in TeamsWithBye(teamIDs, numWeeks)
    ensures forall t :: IdleTwice(Custom(teamIDs, numWeeks), t) <==> t in teamIDs && ByeWeek(teamIDs, t) + |teamIDs| <= numWeeks
  {
    var es := Custom(teamIDs, numWeeks);
    assert |teamIDs| >= 3;
    hide Idle, Custom, HomeAndAway, ByeWeek, OddLeague, OneIdleTeam;
    OneIdleInCustom(teamIDs, numWeeks);
    forall t
      ensures HasBye(es, t) <==> t in TeamsWithBye(teamIDs, numWeeks)
      ensures IdleTwice(es, t) <==> t in teamIDs && ByeWeek(teamIDs, t) + |teamIDs| <= numWeeks
    {
      if HasBye(es, t) {
        var w :| Idle(es, w, t);
        IdleWeeksOfTeam(teamIDs, numWeeks, w, t);
      }
      if t in TeamsWithBye(teamIDs, numWeeks) {
        IdleWeeksOfTeam(teamIDs, numWeeks, ByeWeek(teamIDs, t), t);
      }
      TwiceInCustom(teamIDs, numWeeks, t);
    }
  }

  lemma TwiceInCustom(teamIDs: seq<int>, numWeeks: nat, team: int)
    requires OddLeague(teamIDs)
    ensures IdleTwice(Custom(teamIDs, numWeeks), team) <==> team in teamIDs && ByeWeek(teamIDs, team) + |teamIDs| <= numWeeks
  {
    var es := Custom(teamIDs, numWeeks);
    assert |teamIDs| >= 3;
    hide Idle, Custom, HomeAndAway, ByeWeek, OddLeague;
    if IdleTwice(es, team) {
      var v, w :| v != w && Idle(es, v, team) && Idle(es, w, team);
      IdleWeeksOfTeam(teamIDs, numWeeks, v, team);
      IdleWeeksOfTeam(teamIDs, numWeeks, w, team);
    }
    if team in teamIDs && ByeWeek(teamIDs, team) + |teamIDs| <= numWeeks {
      var v, w := ByeWeek(teamIDs, team), ByeWeek(teamIDs, team) + |teamIDs|;
      IdleWeeksOfTeam(teamIDs, numWeeks, v, team);
      IdleWeeksOfTeam(teamIDs, numWeeks, w, team);
      assert v != w && Idle(es, v, team) && Idle(es, w, team);
    }
  }

  lemma OneIdleInCustom(teamIDs: seq<int>, numWeeks: nat)
    requires OddLeague(teamIDs)
    ensures OneIdleTeam(Custom(teamIDs, numWeeks))
  {
    ByesOfHomeAndAway(teamIDs);
    hide Idle, Custom, HomeAndAway, WeekInCycle;
    forall w, t, u | Idle(Custom(teamIDs, numWeeks), w, t) && Idle(Custom(teamIDs, numWeeks), w, u)
      ensures t == u
    {
      if numWeeks <= 1 {
        NobodyIdleInOneWeek(teamIDs, numWeeks, w, t);
      } else {
        IdleInCustom(teamIDs, numWeeks, w, t);
        IdleInCustom(teamIDs, numWeeks, w, u);
      }
    }
  }

  // ---- What requests lead to -----------------------------------------------------------------------

  /**
   Main result: in a custom schedule of an odd league, a request map makes the program panic exactly
   when it asks for fewer existing weeks than it names teams with a bye within the season; and the
   iteration order matters exactly when it does not panic and some request names a team whose second
   bye falls within the season too.
   */
  lemma RequestsInCustom(teamIDs: seq<int>, numWeeks: nat, natural: map<int, int>, bye: map<int, int>)
    requires OddLeague(teamIDs) && IsNaturalByes(Custom(teamIDs, numWeeks), natural)
    ensures var teams := TeamsWithBye(teamIDs, numWeeks);
            var panics := |RequestsWithin(teams, numWeeks, bye)| < |Requesting(teams, bye)|;
            && (Reorder(Custom(teamIDs, numWeeks), natural, bye) == None <==> panics)
            && (OrderMatters(Custom(teamIDs, numWeeks), bye) <==>
                  !panics && exists w :: w in bye && bye[w] in teamIDs && ByeWeek(teamIDs, bye[w]) + |teamIDs| <= numWeeks)
  {
    var es, teams := Custom(teamIDs, numWeeks), TeamsWithBye(teamIDs, numWeeks);
    ByesOfCustom(teamIDs, numWeeks);
    forall w
      ensures w in Weeks(es) <==> 1 <= w <= numWeeks
    {
      CustomWeeks(teamIDs, numWeeks, w);
    }
    hide Custom, Weeks, IsNaturalByes, OneIdleTeam, HasBye, TooFewWeeks, IdleTwice, Reorder, OrderMatters, RequestsWithin, Requesting,
      OddLeague, TeamsWithBye, ByeWeek;
    TooFewWeeksMeans(es, teams, numWeeks, bye);
    PanicsExactlyWhen(es, natural, bye);
    OrderMattersExactlyWhen(es, bye);
  }

  /** So in seasons no longer than one pass the iteration order never matters, and in longer ones it can. */
  lemma OrderMattersFromTheSecondPassOn(teamIDs: seq<int>, numWeeks: nat)
    requires OddLeague(teamIDs)
    ensures (exists bye :: OrderMatters(Custom(teamIDs, numWeeks), bye)) <==> numWeeks > |teamIDs|
  {
    assert |teamIDs| >= 2;
    hide *;
    var natural := SomeNatural(teamIDs, numWeeks);
    if bye :| OrderMatters(Custom(teamIDs, numWeeks), bye) {
      RequestsInCustom(teamIDs, numWeeks, natural, bye);
    }
    if numWeeks > |teamIDs| {
      var team := FirstWeekOff(teamIDs);
      OneRequestMatters(teamIDs, numWeeks, team, natural);
    }
  }

  lemma OneRequestMatters(teamIDs: seq<int>, numWeeks: nat, team: int, natural: map<int, int>)
    requires OddLeague(teamIDs) && team in teamIDs && ByeWeek(teamIDs, team) == 1 && numWeeks > |teamIDs|
    requires IsNaturalByes(Custom(teamIDs, numWeeks), natural)
    ensures OrderMatters(Custom(teamIDs, numWeeks), map[1 := team])
  {
    var bye := map[1 := team];
    assert |teamIDs| >= 2 && 1 in bye && bye[1] == team;
    hide *;
    RequestsInCustom(teamIDs, numWeeks, natural, bye);
    OneRequestSuffices(teamIDs, numWeeks, team);
    assert |{1}| == |{team}|;
  }

  lemma SomeNatural(teamIDs: seq<int>, numWeeks: nat) returns (natural: map<int, int>)
    requires OddLeague(teamIDs)
    ensures IsNaturalByes(Custom(teamIDs, numWeeks), natural)
  {
    var es := Custom(teamIDs, numWeeks);
    hide Custom, Idle;
    if w, t :| Idle(es, w, t) {
      OneIdleInCustom(teamIDs, numWeeks);
      ByesWithAreNatural(es, t, w);
      natural := ByesWith(es, t, w);
    } else {
      natural := map[];
    }
  }

  lemma FirstWeekOff(teamIDs: seq<int>) returns (team: int)
    requires OddLeague(teamIDs)
    ensures team in teamIDs && ByeWeek(teamIDs, team) == 1
  {
    team := teamIDs[IdleTeam(teamIDs, 1)];
    DrawsInByeWeek(teamIDs, team, 1);
  }

  lemma OneRequestSuffices(teamIDs: seq<int>, numWeeks: nat, team: int)
    requires OddLeague(teamIDs) && team in teamIDs && ByeWeek(teamIDs, team) == 1 && numWeeks >= 2
    ensures var teams, bye := TeamsWithBye(teamIDs, numWeeks), map[1 := team];
            RequestsWithin(teams, numWeeks, bye) == {1} && Requesting(teams, bye) == {team}
  {
    hide ByeWeek, OddLeague;
    var teams, bye := TeamsWithBye(teamIDs, numWeeks), map[1 := team];
    assert team in teams;
    hide TeamsWithBye;
    SameElements(RequestsWithin(teams, numWeeks, bye), {1});
    SameElements(Requesting(teams, bye), {team});
  }

  // ---- One match a week ------------------------------------------------------------------------------

  /** No team plays twice in a week of a custom schedule, and from two weeks on any two weeks share a team. */
  lemma CustomIsWeeklyMatching(teamIDs: seq<int>, numWeeks: nat)
    requires OddLeague(teamIDs)
    ensures IsWeeklyMatching(Custom(teamIDs, numWeeks))
    ensures WeeksShareTeams(Custom(teamIDs, numWeeks))
  {
    var es, base := Custom(teamIDs, numWeeks), HomeAndAway(teamIDs);
    HomeAndAwayIsWeeklyMatching(teamIDs);
    hide Custom, HomeAndAway, Plays, WeekInCycle, WeeksShareTeams, ShareATeam;
    forall week, team | team != BYE
      ensures Plays(es, week, team) <= 1
    {
      CustomPlays(teamIDs, numWeeks, week, team);
      assert Plays(base, WeekInCycle(week, 2 * |teamIDs|), team) <= 1;
    }
    hide IsWeeklyMatching;
    if numWeeks >= 2 {
      assert |teamIDs| >= 3;
      CustomTeams(teamIDs, numWeeks, teamIDs[0]);
      CustomTeams(teamIDs, numWeeks, teamIDs[1]);
      CustomTeams(teamIDs, numWeeks, teamIDs[2]);
      OneIdleInCustom(teamIDs, numWeeks);
      hide AllTeams, OneIdleTeam;
      OneOffStillShares(es, teamIDs[0], teamIDs[1], teamIDs[2]);
    } else {
      OneWeekShares(teamIDs, numWeeks);
    }
  }

  lemma OneWeekShares(teamIDs: seq<int>, numWeeks: nat)
    requires OddLeague(teamIDs) && numWeeks <= 1
    ensures WeeksShareTeams(Custom(teamIDs, numWeeks))
  {
    hide Custom, Weeks, ShareATeam;
    forall v | v in Weeks(Custom(teamIDs, numWeeks))
      ensures v == 1
    {
      CustomWeeks(teamIDs, numWeeks, v);
    }
  }
}
