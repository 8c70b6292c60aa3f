/**
 What the generators promise end to end: fairness of the pairings, one match a week, the
 periodic custom schedule, and that byes and dates disturb none of it.
 */
module ScheduleTheorems {
  import opened Prelude
  import opened Schedule
  import opened RoundRobin
  import opened CircleMethod
  import opened ByeRequests
  import opened ByeProperties
  import opened ByeOutcomes
  import opened ByeMatching
  import opened DateAssignment
  import opened Generators

  // ---- Home and away -------------------------------------------------------------------

  lemma MirroredCounts(es: seq<ScheduleEntry>, shift: int)
    ensures forall a, b :: Hostings(Mirrored(es, shift), a, b) == Hostings(es, b, a)
    ensures forall week, team :: Plays(Mirrored(es, shift), week, team) == Plays(es, week - shift, team)
  {
    forall a, b
      ensures Hostings(Mirrored(es, shift), a, b) == Hostings(es, b, a)
    {
      CountTranslate(Mirrored(es, shift), HostingOf(a, b), es, HostingOf(b, a));
    }
    forall week, team
      ensures Plays(Mirrored(es, shift), week, team) == Plays(es, week - shift, team)
    {
      CountTranslate(Mirrored(es, shift), PlayingIn(week, team), es, PlayingIn(week - shift, team));
    }
  }

  lemma MeetingsAreHostings(es: seq<ScheduleEntry>, a: int, b: int)
    requires a != b
    ensures Meetings(es, a, b) == Hostings(es, a, b) + Hostings(es, b, a)
  {
    CountSplit(es, MeetingOf(a, b), HostingOf(a, b), HostingOf(b, a));
  }

  /** Main result: in the double round robin every team receives every other exactly once. */
  lemma EveryPairHomeAndAway(teamIDs: seq<int>, a: int, b: int)
    requires ValidIDs(teamIDs) && a in teamIDs && b in teamIDs && a != b
    ensures Hostings(HomeAndAway(teamIDs), a, b) == 1
  {
    hide Rotation, Mirrored;
    assert |teamIDs| >= 2;
    var first := Rotation(teamIDs);
    EveryPairMeetsOnce(teamIDs, a, b);
    MeetingsAreHostings(first, a, b);
    MirroredCounts(first, MaxWeek(first));
    CountConcat(first, Mirrored(first, MaxWeek(first)), HostingOf(a, b));
  }

  lemma RotationLastWeek(teamIDs: seq<int>)
    requires ValidIDs(teamIDs) && |teamIDs| >= 2
    ensures MaxWeek(Rotation(teamIDs)) == |Seats(teamIDs)| - 1
  {
    var es, last := Rotation(teamIDs), |Seats(teamIDs)| - 1;
    hide Rotation;
    RotationWellFormed(teamIDs);
    var p := if |teamIDs| % 2 != 0 && IdleWeek(teamIDs, 0) == last then 1 else 0;
    if |teamIDs| % 2 != 0 {
      IdleWeeksAndTeamsMatch(teamIDs, 0, last);
      IdleWeeksAndTeamsMatch(teamIDs, p, last);
    }
    WeeklyMatching(teamIDs, last, p);
    CountZero(es, PlayingIn(last, teamIDs[p]));
  }

  /** No team has two matches in one week of the double round robin. */
  lemma HomeAndAwayIsWeeklyMatching(teamIDs: seq<int>)
    requires ValidIDs(teamIDs) && |teamIDs| >= 2
    ensures IsWeeklyMatching(HomeAndAway(teamIDs))
  {
    hide Rotation, Mirrored, Plays;
    var first := Rotation(teamIDs);
    var n := MaxWeek(first);
    RotationWellFormed(teamIDs);
    RotationIsWeeklyMatching(teamIDs);
    MirroredCounts(first, n);
    assert forall i :: 0 <= i < |first| ==> first[i] in first && 1 <= first[i].week <= n;
    forall week, team | team != BYE
      ensures Plays(HomeAndAway(teamIDs), week, team) <= 1
    {
      PlaysConcat(first, Mirrored(first, n), week, team);
      if week <= n {
        OutOfWeeks(first, 1, n, week - n, team);
        assert Plays(first, week, team) <= 1;
      } else {
        OutOfWeeks(first, 1, n, week, team);
        assert Plays(first, week - n, team) <= 1;
      }
    }
  }

  lemma PlaysConcat(xs: seq<ScheduleEntry>, ys: seq<ScheduleEntry>, week: int, team: int)
    ensures Plays(xs + ys, week, team) == Plays(xs, week, team) + Plays(ys, week, team)
  {
    CountConcat(xs, ys, PlayingIn(week, team));
  }

  lemma OutOfWeeks(es: seq<ScheduleEntry>, first: int, last: int, week: int, team: int)
    requires forall i :: 0 <= i < |es| ==> first <= es[i].week <= last
    requires week < first || last < week
    ensures Plays(es, week, team) == 0
  {
    CountZero(es, PlayingIn(week, team));
  }

  // ---- The custom schedule is periodic ---------------------------------------------------

  /** What is counted in a week: a fixture, or the matches of a team. */
  datatype Counted = Fixture(host: int, guest: int) | Team(team: int)

  ghost function CountedIn(c: Counted, week: int): ScheduleEntry -> bool {
    match c
    case Fixture(host, guest) => FixtureIn(host, guest, week)
    case Team(team) => PlayingIn(week, team)
  }

  lemma {:induction false} CutCounts(es: seq<ScheduleEntry>, last: int, c: Counted, week: int)
    ensures Count(CutAfter(es, last), CountedIn(c, week)) == if week <= last then Count(es, CountedIn(c, week)) else 0
  {
    if es != [] {
      var init, e := es[..|es| - 1], es[|es| - 1];
      CutCounts(init, last, c, week);
      CountSingle(e, CountedIn(c, week));
      CountConcat(CutAfter(init, last), [e], CountedIn(c, week));
      if e.week > last {
        assert CutAfter(es, last) == CutAfter(init, last);
      }
    }
  }

  lemma ShiftedCounts(base: seq<ScheduleEntry>, shift: int, c: Counted, week: int)
    ensures Count(Shifted(base, shift), CountedIn(c, week)) == Count(base, CountedIn(c, week - shift))
  {
    CountTranslate(Shifted(base, shift), CountedIn(c, week), base, CountedIn(c, week - shift));
  }

  /** The week of the cycle that a week of the schedule repeats. */
  function WeekInCycle(week: int, cycle: nat): int
    requires cycle >= 1
  {
    (week - 1) % cycle + 1
  }

  lemma WeekOfPass(k: nat, cycle: nat, week: int)
    requires cycle >= 1 && k * cycle < week <= (k + 1) * cycle
    ensures WeekInCycle(week, cycle) == week - k * cycle
  {
    var x := week - 1;
    var q := x / cycle;
    assert x == q * cycle + x % cycle;
    assert (q + 1) * cycle == q * cycle + cycle && (k + 1) * cycle == k * cycle + cycle;
    if q < k {
      MulMonotone(q + 1, k, cycle);
    } else if k < q {
      MulMonotone(k + 1, q, cycle);
    }
  }

  /** One pass of the cycle fills the weeks after the passes before it. */
  lemma PassCounts(base: seq<ScheduleEntry>, cycle: nat, k: nat, offset: int, c: Counted, week: int)
    requires cycle >= 1 && offset == k * cycle && forall i :: 0 <= i < |base| ==> 1 <= base[i].week <= cycle
    ensures Count(Shifted(base, offset), CountedIn(c, week)) ==
            if offset < week <= offset + cycle then Count(base, CountedIn(c, WeekInCycle(week, cycle))) else 0
  {
    hide WeekInCycle, Shifted, Count;
    ShiftedCounts(base, offset, c, week);
    if offset < week <= offset + cycle {
      assert (k + 1) * cycle == k * cycle + cycle;
      WeekOfPass(k, cycle, week);
    } else {
      CountZero(base, CountedIn(c, week - offset));
    }
  }

  lemma {:induction false} RepeatedCounts(base: seq<ScheduleEntry>, cycle: nat, passes: nat, c: Counted, week: int)
    requires cycle >= 1 && forall i :: 0 <= i < |base| ==> 1 <= base[i].week <= cycle
    ensures Count(Repeated(base, cycle, passes), CountedIn(c, week)) ==
            if 1 <= week <= passes * cycle then Count(base, CountedIn(c, WeekInCycle(week, cycle))) else 0
  {
    hide *;
    if passes == 0 {
      NoPassesNoCounts(base, cycle, c, week);
    } else {
      var p := passes - 1;
      var offset := p * cycle;
      assert passes * cycle == offset + cycle;
      RepeatedCounts(base, cycle, p, c, week);
      PassCounts(base, cycle, p, offset, c, week);
      OneMorePass(base, cycle, p);
      CountConcat(Repeated(base, cycle, p), Shifted(base, offset), CountedIn(c, week));
    }
  }

  lemma NoPassesNoCounts(base: seq<ScheduleEntry>, cycle: nat, c: Counted, week: int)
    ensures Count(Repeated(base, cycle, 0), CountedIn(c, week)) == 0
  {
  }

  lemma OneMorePass(base: seq<ScheduleEntry>, cycle: nat, p: nat)
    ensures Repeated(base, cycle, p + 1) == Repeated(base, cycle, p) + Shifted(base, p * cycle)
  {
    hide Shifted;
  }

  lemma PeriodicCounts(base: seq<ScheduleEntry>, cycle: nat, numWeeks: nat, c: Counted, week: int)
    requires cycle >= 1 && forall i :: 0 <= i < |base| ==> 1 <= base[i].week <= cycle
    ensures Count(CutAfter(Repeated(base, cycle, numWeeks), numWeeks), CountedIn(c, week)) ==
            if 1 <= week <= numWeeks then Count(base, CountedIn(c, WeekInCycle(week, cycle))) else 0
  {
    hide CountedIn, Repeated, CutAfter, WeekInCycle;
    CutCounts(Repeated(base, cycle, numWeeks), numWeeks, c, week);
    RepeatedCounts(base, cycle, numWeeks, c, week);
    assert numWeeks <= numWeeks * cycle by {
      MulMonotone(1, cycle, numWeeks);
    }
  }

  lemma CountedByKind(es: seq<ScheduleEntry>, host: int, guest: int, team: int, week: int)
    ensures Count(es, CountedIn(Fixture(host, guest), week)) == Fixtures(es, host, guest, week)
    ensures Count(es, CountedIn(Team(team), week)) == Plays(es, week, team)
  {
  }

  /**
   Main result: week w of the custom schedule has exactly the fixtures of week
   (w-1) mod c + 1 of the home-and-away cycle, for every w up to the last week, and none after;
   and so every team has as many matches.
   */
  lemma CustomScheduleIsPeriodic(base: seq<ScheduleEntry>, numWeeks: nat, host: int, guest: int, team: int, week: int)
    requires base != [] && forall i :: 0 <= i < |base| ==> base[i].week >= 1
    ensures MaxWeek(base) >= 1
    ensures Fixtures(Periodic(base, numWeeks), host, guest, week) ==
            if 1 <= week <= numWeeks then Fixtures(base, host, guest, WeekInCycle(week, MaxWeek(base))) else 0
    ensures Plays(Periodic(base, numWeeks), week, team) ==
            if 1 <= week <= numWeeks then Plays(base, WeekInCycle(week, MaxWeek(base)), team) else 0
  {
    assert base[0].week <= MaxWeek(base);
    hide MaxWeek, Fixtures, Plays, Repeated, CutAfter, Count, WeekInCycle, CountedIn;
    PeriodicCounts(base, MaxWeek(base), numWeeks, Fixture(host, guest), week);
    PeriodicCounts(base, MaxWeek(base), numWeeks, Team(team), week);
    var inCycle := WeekInCycle(week, MaxWeek(base));
    CountedByKind(Periodic(base, numWeeks), host, guest, team, week);
    CountedByKind(base, host, guest, team, inCycle);
  }

  /** Valid IDs always give a schedule that is not empty, so the custom generator terminates. */
  lemma ValidIDsTerminate(teamIDs: seq<int>)
    requires ValidIDs(teamIDs) && |teamIDs| >= 2
    ensures Rotation(teamIDs) != []
  {
    EveryPairMeetsOnce(teamIDs, teamIDs[0], teamIDs[1]);
  }

  // ---- Byes and dates disturb nothing ----------------------------------------------------

  lemma DatedCounts(es: seq<ScheduleEntry>, start: int, skips: set<int>)
    ensures forall a, b :: Meetings(Dated(es, start, skips), a, b) == Meetings(es, a, b)
    ensures forall a, b :: Hostings(Dated(es, start, skips), a, b) == Hostings(es, a, b)
    ensures forall week, team :: Plays(Dated(es, start, skips), week, team) == Plays(es, week, team)
  {
    var r := Dated(es, start, skips);
    hide WeekDate;
    forall a, b
      ensures Meetings(r, a, b) == Meetings(es, a, b)
      ensures Hostings(r, a, b) == Hostings(es, a, b)
    {
      CountTranslate(r, MeetingOf(a, b), es, MeetingOf(a, b));
      CountTranslate(r, HostingOf(a, b), es, HostingOf(a, b));
    }
    forall week, team
      ensures Plays(r, week, team) == Plays(es, week, team)
    {
      CountTranslate(r, PlayingIn(week, team), es, PlayingIn(week, team));
    }
  }

  /** Honoured requests are granted, and the pairings and the weekly matching survive. */
  ghost predicate KeepsPromises(es: seq<ScheduleEntry>, r: seq<ScheduleEntry>, natural: map<int, int>, bye: map<int, int>) {
    && |r| == |es|
    && (forall a, b :: Meetings(r, a, b) == Meetings(es, a, b))
    && (forall a, b :: Hostings(r, a, b) == Hostings(es, a, b))
    && (IsWeeklyMatching(es) ==> IsWeeklyMatching(r))
    && (forall w :: w in Honoured(natural, bye) ==> Plays(r, w, bye[w]) == 0)
  }

  lemma MovedWeekIsMatching(es: seq<ScheduleEntry>, m: map<int, int>, week: int, team: int)
    requires Permutes(m, Weeks(es)) && IsWeeklyMatching(es) && team != BYE
    ensures Plays(Moved(es, m), week, team) <= 1
  {
    hide Plays, Weeks, Moved, MapsInto, Injective;
    if week in Weeks(es) {
      var v :| v in m && m[v] == week;
      hide Onto;
      WeeksMoveTogether(es, m, v);
      assert Plays(es, v, team) <= 1;
    } else {
      MovedKeepsWeeks(es, m);
      UnusedWeek(Moved(es, m), week, team);
    }
  }

  lemma MovedKeepsMatching(es: seq<ScheduleEntry>, m: map<int, int>)
    requires Permutes(m, Weeks(es)) && IsWeeklyMatching(es)
    ensures IsWeeklyMatching(Moved(es, m))
  {
    hide Plays, Weeks, Moved, Permutes;
    forall week, team | team != BYE
      ensures Plays(Moved(es, m), week, team) <= 1
    {
      MovedWeekIsMatching(es, m, week, team);
    }
  }

  lemma ReorderKeepsPromises(es: seq<ScheduleEntry>, natural: map<int, int>, bye: map<int, int>)
    requires IsNaturalByes(es, natural) && Sensible(es, natural, bye)
    ensures Reorder(es, natural, bye).Some?
    ensures KeepsPromises(es, Reorder(es, natural, bye).value, natural, bye)
  {
    hide *;
    RemapPermutesWeeks(es, natural, bye);
    ReorderIs(es, natural, bye);
    PairingsUnaffected(es, Remap(es, natural, bye));
    if IsWeeklyMatching(es) {
      MovedKeepsMatching(es, Remap(es, natural, bye));
    }
    forall w | w in Honoured(natural, bye)
      ensures w in bye && Plays(Reorder(es, natural, bye).value, w, bye[w]) == 0
    {
      HonouredAreRequests(natural, bye);
      RequestsAreGranted(es, natural, bye, w);
    }
    PromisesKept(es, Reorder(es, natural, bye).value, natural, bye);
  }

  lemma PromisesKept(es: seq<ScheduleEntry>, r: seq<ScheduleEntry>, natural: map<int, int>, bye: map<int, int>)
    requires |r| == |es|
    requires forall a, b :: Meetings(r, a, b) == Meetings(es, a, b)
    requires forall a, b :: Hostings(r, a, b) == Hostings(es, a, b)
    requires IsWeeklyMatching(es) ==> IsWeeklyMatching(r)
    requires forall w :: w in Honoured(natural, bye) ==> w in bye && Plays(r, w, bye[w]) == 0
    ensures KeepsPromises(es, r, natural, bye)
  {
  }

  /** What dates and renumbering can never disturb. */
  ghost predicate KeepsPairings(es: seq<ScheduleEntry>, r: seq<ScheduleEntry>) {
    && |r| == |es|
    && (forall a, b :: Meetings(r, a, b) == Meetings(es, a, b))
    && (forall a, b :: Hostings(r, a, b) == Hostings(es, a, b))
  }

  lemma DatedKeepsPromises(es: seq<ScheduleEntry>, moved: seq<ScheduleEntry>, start: int, skips: set<int>, natural: map<int, int>, bye: map<int, int>)
    ensures KeepsPairings(es, moved) ==> KeepsPairings(es, Dated(moved, start, skips))
    ensures IsWeeklyMatching(Dated(moved, start, skips)) <==> IsWeeklyMatching(moved)
    ensures KeepsPromises(es, moved, natural, bye) ==> KeepsPromises(es, Dated(moved, start, skips), natural, bye)
  {
    DatedCounts(moved, start, skips);
    hide WeekDate, Meetings, Hostings, Plays, Honoured;
  }

  lemma ReorderKeepsPairings(es: seq<ScheduleEntry>, natural: map<int, int>, bye: map<int, int>)
    requires !Overruns(es, natural, bye)
    ensures KeepsPairings(es, Reorder(es, natural, bye).value)
  {
    hide Overruns, Meetings, Hostings, Remap;
    PairingsUnaffected(es, Remap(es, natural, bye));
  }

  /**
   Main result: for every map iteration order and every request map, the generator panics exactly
   when the pairing of weeks overruns, and otherwise keeps all pairings and puts every match on the
   date of its week. Where any two weeks share a team, no team plays twice in a week exactly when
   the requests fit; sensible requests always do, and are granted.
   */
  lemma FinishedKeepsPromises(es: seq<ScheduleEntry>, natural: map<int, int>, opts: ScheduleOptions)
    requires ByesOf(es, natural, opts)
    ensures Finished(es, natural, opts).Err? <==> opts.byeByWeek != map[] && Overruns(es, natural, opts.byeByWeek)
    ensures Finished(es, natural, opts).Ok? ==>
              var r := Finished(es, natural, opts).value;
              && KeepsPairings(es, r)
              && (IsWeeklyMatching(es) && WeeksShareTeams(es) ==>
                    (IsWeeklyMatching(r) <==> opts.byeByWeek == map[] || Fits(es, natural, opts.byeByWeek)))
              && (Sensible(es, natural, opts.byeByWeek) ==> KeepsPromises(es, r, natural, opts.byeByWeek))
              && (opts.startDate.Some? ==>
                    forall i :: 0 <= i < |r| && r[i].week >= 1 ==>
                      r[i].date == Some(WeekDate(opts.startDate.value, (set d | d in opts.skipDates), r[i].week)))
    ensures Sensible(es, natural, opts.byeByWeek) ==> Finished(es, natural, opts).Ok?
  {
    var bye := opts.byeByWeek;
    hide *;
    FinishedIs(es, natural, opts);
    AfterByesKeepsPromises(es, natural, opts);
    var moved := AfterByes(es, natural, bye);
    if moved.Some? && opts.startDate.Some? {
      DatedKeepsPromises(es, moved.value, opts.startDate.value, (set d | d in opts.skipDates), natural, bye);
      DatedAt(moved.value, opts.startDate.value, set d | d in opts.skipDates);
    }
  }

  lemma AfterByesKeepsPromises(es: seq<ScheduleEntry>, natural: map<int, int>, opts: ScheduleOptions)
    requires ByesOf(es, natural, opts)
    ensures var bye := opts.byeByWeek;
            var moved := AfterByes(es, natural, bye);
            && (moved == None <==> bye != map[] && Overruns(es, natural, bye))
            && (Sensible(es, natural, bye) ==> moved.Some? && KeepsPromises(es, moved.value, natural, bye))
            && (moved.Some? ==>
                  && KeepsPairings(es, moved.value)
                  && (IsWeeklyMatching(es) && WeeksShareTeams(es) ==>
                        (IsWeeklyMatching(moved.value) <==> bye == map[] || Fits(es, natural, bye))))
  {
    var bye := opts.byeByWeek;
    hide *;
    AfterByesIs(es, natural, bye);
    if bye == map[] {
      NothingAsked(es, natural);
    } else {
      ByesOfRequests(es, natural, opts);
      ReorderExists(es, natural, bye);
      if Sensible(es, natural, bye) {
        ReorderKeepsPromises(es, natural, bye);
      }
      if !Overruns(es, natural, bye) {
        ReorderKeepsPairings(es, natural, bye);
        if IsWeeklyMatching(es) && WeeksShareTeams(es) {
          MatchingKeptExactlyWhen(es, natural, bye);
        }
      }
    }
  }

  lemma AfterByesIs(es: seq<ScheduleEntry>, natural: map<int, int>, bye: map<int, int>)
    ensures AfterByes(es, natural, bye) == if bye == map[] then Some(es) else Reorder(es, natural, bye)
  {
    hide Reorder;
  }

  lemma NothingAsked(es: seq<ScheduleEntry>, natural: map<int, int>)
    ensures KeepsPromises(es, es, natural, map[]) && KeepsPairings(es, es)
  {
    hide Meetings, Hostings, Plays, IsWeeklyMatching;
  }

  lemma ByesOfRequests(es: seq<ScheduleEntry>, natural: map<int, int>, opts: ScheduleOptions)
    requires ByesOf(es, natural, opts) && opts.byeByWeek != map[]
    ensures IsNaturalByes(es, natural)
  {
  }

  lemma FinishedIs(es: seq<ScheduleEntry>, natural: map<int, int>, opts: ScheduleOptions)
    ensures Finished(es, natural, opts).Err? <==> AfterByes(es, natural, opts.byeByWeek) == None
    ensures Finished(es, natural, opts).Ok? ==>
              Finished(es, natural, opts).value ==
              if opts.startDate.None? then AfterByes(es, natural, opts.byeByWeek).value
              else Dated(AfterByes(es, natural, opts.byeByWeek).value, opts.startDate.value, set d | d in opts.skipDates)
  {
    hide AfterByes, Dated;
  }

  lemma DatedAt(es: seq<ScheduleEntry>, start: int, skips: set<int>)
    ensures |Dated(es, start, skips)| == |es|
    ensures forall i :: 0 <= i < |es| && es[i].week >= 1 ==>
              Dated(es, start, skips)[i].week == es[i].week && Dated(es, start, skips)[i].date == Some(WeekDate(start, skips, es[i].week))
    ensures forall i :: 0 <= i < |es| ==> Dated(es, start, skips)[i].week == es[i].week
  {
    hide WeekDate;
  }
}
