/**
 The schedule generators: a single pass, home and away, and a fixed number of weeks cycling
 through the home-and-away schedule. Each ends by honouring byes and assigning dates.
 */
module Generators {
  import opened Prelude
  import opened Schedule
  import opened RoundRobin
  import opened ByeRequests
  import opened DateAssignment

  datatype ScheduleOptions = ScheduleOptions(
    startDate: Option<int>,
    skipDates: seq<int>,
    numWeeks: int,
    byeByWeek: map<int, int>)

  const NO_OPTIONS := ScheduleOptions(None, [], 0, map[])

  // ---- assignDates -------------------------------------------------------------------

  ghost function AfterByes(es: seq<ScheduleEntry>, natural: map<int, int>, bye: map<int, int>): Option<seq<ScheduleEntry>> {
    if bye == map[] then Some(es) else Reorder(es, natural, bye)
  }

  /** The schedule as returned: byes honoured first, then dates, if there is a start date. */
  ghost function Finished(es: seq<ScheduleEntry>, natural: map<int, int>, opts: ScheduleOptions)
    : Result<seq<ScheduleEntry>, ScheduleError>
  {
    match AfterByes(es, natural, opts.byeByWeek)
    case None => Err(Panicked)
    case Some(moved) =>
      if opts.startDate.None? then Ok(moved)
      else Ok(Dated(moved, opts.startDate.value, set d | d in opts.skipDates))
  }

  ghost predicate ByesOf(es: seq<ScheduleEntry>, natural: map<int, int>, opts: ScheduleOptions) {
    opts.byeByWeek != map[] ==> IsNaturalByes(es, natural)
  }

  ghost predicate Undated(es: seq<ScheduleEntry>) {
    forall i :: 0 <= i < |es| ==> es[i].date == None
  }

  /** The date of a week, if there is a start date. */
  ghost function DateIn(week: int, opts: ScheduleOptions): Option<int> {
    if opts.startDate.Some? && week >= 1 then Some(WeekDate(opts.startDate.value, (set d | d in opts.skipDates), week))
    else None
  }

  /**
   What a caller gets for a generated schedule: all its matches in their order, each on the date of
   its week, and in its own week unless byes were requested; only bye requests can fail.
   */
  ghost predicate IsSchedule(r: Result<seq<ScheduleEntry>, ScheduleError>, es: seq<ScheduleEntry>, opts: ScheduleOptions) {
    match r
    case Err(e) => e == Panicked && opts.byeByWeek != map[]
    case Ok(s) =>
      && |s| == |es|
      && (forall i :: 0 <= i < |es| ==> s[i].home == es[i].home && s[i].away == es[i].away)
      && (forall i :: 0 <= i < |es| ==> s[i].date == DateIn(s[i].week, opts))
      && (opts.byeByWeek == map[] ==> forall i :: 0 <= i < |es| ==> s[i].week == es[i].week)
  }

  lemma ReorderedEntries(es: seq<ScheduleEntry>, natural: map<int, int>, bye: map<int, int>)
    ensures var r := Reorder(es, natural, bye);
            r.Some? ==>
              && |r.value| == |es|
              && forall i :: 0 <= i < |es| ==>
                   r.value[i].home == es[i].home && r.value[i].away == es[i].away && r.value[i].date == es[i].date
  {
    hide Overruns, Remap;
  }

  lemma DatedEntries(es: seq<ScheduleEntry>, opts: ScheduleOptions)
    requires opts.startDate.Some?
    ensures var r := Dated(es, opts.startDate.value, set d | d in opts.skipDates);
            && |r| == |es|
            && forall i :: 0 <= i < |es| ==>
                 r[i].home == es[i].home && r[i].away == es[i].away && r[i].week == es[i].week && r[i].date == DateIn(es[i].week, opts)
  {
    hide WeekDate;
  }

  /** Main result: whatever the options, the entries are those generated, on the dates of their weeks. */
  lemma FinishedIsSchedule(es: seq<ScheduleEntry>, natural: map<int, int>, opts: ScheduleOptions)
    requires Undated(es)
    ensures IsSchedule(Finished(es, natural, opts), es, opts)
  {
    hide Reorder, Dated, WeekDate;
    var moved := AfterByes(es, natural, opts.byeByWeek);
    ReorderedEntries(es, natural, opts.byeByWeek);
    if moved.Some? && opts.startDate.Some? {
      DatedEntries(moved.value, opts);
    }
  }

  method AssignDates(entries: seq<ScheduleEntry>, opts: ScheduleOptions)
    returns (r: Result<seq<ScheduleEntry>, ScheduleError>, ghost natural: map<int, int>)
    ensures ByesOf(entries, natural, opts)
    ensures r == Finished(entries, natural, opts)
    ensures Undated(entries) ==> IsSchedule(r, entries, opts)
  {
    hide Reorder, Dated, IsNaturalByes, IsSchedule;
    var moved;
    moved, natural := ApplyByeRequests(entries, opts.byeByWeek);
    if Undated(entries) {
      FinishedIsSchedule(entries, natural, opts);
    }
    if moved.None? {
      return Err(Panicked), natural;
    }
    if opts.startDate.None? {
      return Ok(moved.value), natural;
    }
    var dated := AssignCalendar(moved.value, opts.startDate.value, opts.skipDates);
    r := Ok(dated);
  }

  // ---- Generated schedules have no dates yet -------------------------------------------

  lemma RotationUndated(teamIDs: seq<int>)
    requires |teamIDs| >= 2
    ensures Undated(Rotation(teamIDs))
  {
    CircleUndated(Seats(teamIDs), |Seats(teamIDs)| - 1);
  }

  lemma {:induction false} CircleUndated(t: seq<int>, rounds: nat)
    requires rounds <= |t|
    ensures Undated(Circle(t, rounds))
  {
    if rounds > 0 {
      CircleUndated(t, rounds - 1);
      TablesUndated(t, rounds - 1, |t| / 2);
      hide Tables;
    }
  }

  lemma {:induction false} TablesUndated(t: seq<int>, round: nat, k: nat)
    requires round < |t| && k <= |t|
    ensures Undated(Tables(t, round, k))
  {
    if k > 0 {
      TablesUndated(t, round, k - 1);
    }
  }

  lemma {:induction false} RepeatedUndated(base: seq<ScheduleEntry>, cycle: nat, passes: nat)
    ensures Undated(Repeated(base, cycle, passes))
  {
    if passes > 0 {
      RepeatedUndated(base, cycle, passes - 1);
    }
  }

  lemma {:induction false} CutUndated(es: seq<ScheduleEntry>, last: int)
    requires Undated(es)
    ensures Undated(CutAfter(es, last))
  {
    if es != [] {
      CutUndated(es[..|es| - 1], last);
    }
  }

  lemma PeriodicUndated(base: seq<ScheduleEntry>, numWeeks: nat)
    ensures Undated(Periodic(base, numWeeks))
  {
    hide Undated, Repeated, CutAfter;
    RepeatedUndated(base, MaxWeek(base), numWeeks);
    CutUndated(Repeated(base, MaxWeek(base), numWeeks), numWeeks);
  }

  // ---- Single pass ---------------------------------------------------------------------

  method SingleRoundRobin(teamIDs: seq<int>, opts: ScheduleOptions)
    returns (r: Result<seq<ScheduleEntry>, ScheduleError>, ghost natural: map<int, int>)
    ensures |teamIDs| < 2 ==> r == Err(TooFewTeams)
    ensures |teamIDs| >= 2 ==>
              ByesOf(Rotation(teamIDs), natural, opts) && r == Finished(Rotation(teamIDs), natural, opts)
    ensures |teamIDs| >= 2 ==> IsSchedule(r, Rotation(teamIDs), opts)
  {
    natural := map[];
    hide Rotation, Finished, ByesOf, IsSchedule, Undated;
    var base := RoundRobinBase(teamIDs);
    if base.Err? {
      return base, natural;
    }
    RotationUndated(teamIDs);
    r, natural := AssignDates(base.value, opts);
  }

  // ---- Home and away -------------------------------------------------------------------

  /** The return matches: home and away exchanged, `shift` weeks later. */
  function Mirrored(es: seq<ScheduleEntry>, shift: int): (r: seq<ScheduleEntry>)
    ensures |r| == |es|
  {
    seq(|es|, i requires 0 <= i < |es| => ScheduleEntry(es[i].away, es[i].home, es[i].week + shift, None))
  }

  /** The first half, then its mirror image. */
  function HomeAndAway(teamIDs: seq<int>): seq<ScheduleEntry>
    requires |teamIDs| >= 2
  {
    var first := Rotation(teamIDs);
    first + Mirrored(first, MaxWeek(first))
  }

  method DoubleRoundRobin(teamIDs: seq<int>, opts: ScheduleOptions)
    returns (r: Result<seq<ScheduleEntry>, ScheduleError>, ghost natural: map<int, int>)
    ensures |teamIDs| < 2 ==> r == Err(TooFewTeams)
    ensures |teamIDs| >= 2 ==>
              ByesOf(HomeAndAway(teamIDs), natural, opts) && r == Finished(HomeAndAway(teamIDs), natural, opts)
    ensures |teamIDs| >= 2 ==> IsSchedule(r, HomeAndAway(teamIDs), opts)
  {
    natural := map[];
    hide Rotation, Finished, MaxWeek, ByesOf, IsSchedule, Undated;
    var base := RoundRobinBase(teamIDs);
    if base.Err? {
      return base, natural;
    }
    var first := base.value;
    var entries := AddReturnMatches(first);
    RotationUndated(teamIDs);
    WithMirrorUndated(first, MaxWeek(first));
    r, natural := AssignDates(entries, opts);
  }

  lemma WithMirrorUndated(first: seq<ScheduleEntry>, shift: int)
    requires Undated(first)
    ensures Undated(first + Mirrored(first, shift))
  {
  }

  method AddReturnMatches(first: seq<ScheduleEntry>) returns (entries: seq<ScheduleEntry>)
    ensures entries == first + Mirrored(first, MaxWeek(first))
  {
    var firstRounds := MaxWeekNum(first);
    hide MaxWeek;
    entries := first;
    for i := 0 to |first|
      invariant entries == first + Mirrored(first, firstRounds)[..i]
    {
      var e := first[i];
      entries := entries + [ScheduleEntry(e.away, e.home, e.week + firstRounds, None)];
    }
    assert Mirrored(first, firstRounds)[..|first|] == Mirrored(first, firstRounds);
  }

  // ---- A fixed number of weeks -----------------------------------------------------------

  /** One pass through the cycle, `shift` weeks later. */
  function Shifted(base: seq<ScheduleEntry>, shift: int): (r: seq<ScheduleEntry>)
    ensures |r| == |base|
  {
    seq(|base|, i requires 0 <= i < |base| => ScheduleEntry(base[i].home, base[i].away, base[i].week + shift, None))
  }

  /** The cycle repeated `passes` times. */
  function Repeated(base: seq<ScheduleEntry>, cycle: nat, passes: nat): seq<ScheduleEntry> {
    if passes == 0 then []
    else Repeated(base, cycle, passes - 1) + Shifted(base, (passes - 1) * cycle)
  }

  /** What is left when everything after week `last` is cut off. */
  function CutAfter(es: seq<ScheduleEntry>, last: int): seq<ScheduleEntry> {
    if es == [] then []
    else CutAfter(es[..|es| - 1], last) + if es[|es| - 1].week <= last then [es[|es| - 1]] else []
  }

  /** The periodic schedule of `numWeeks` weeks: repeat the cycle, cut after the last week. */
  function Periodic(base: seq<ScheduleEntry>, numWeeks: nat): seq<ScheduleEntry> {
    CutAfter(Repeated(base, MaxWeek(base), numWeeks), numWeeks)
  }

  lemma {:induction false} CutConcat(xs: seq<ScheduleEntry>, ys: seq<ScheduleEntry>, last: int)
    ensures CutAfter(xs + ys, last) == CutAfter(xs, last) + CutAfter(ys, last)
  {
    if ys == [] {
      assert xs + ys == xs;
    } else {
      assert (xs + ys)[..|xs + ys| - 1] == xs + ys[..|ys| - 1];
      CutConcat(xs, ys[..|ys| - 1], last);
    }
  }

  lemma {:induction false} CutKeepsAll(es: seq<ScheduleEntry>, last: int)
    requires forall i :: 0 <= i < |es| ==> es[i].week <= last
    ensures CutAfter(es, last) == es
  {
    if es != [] {
      var init, e := es[..|es| - 1], es[|es| - 1];
      CutKeepsAll(init, last);
      assert es == init + [e];
      CutStep(init, e, last);
      hide CutAfter;
    }
  }

  lemma CutStep(es: seq<ScheduleEntry>, e: ScheduleEntry, last: int)
    ensures CutAfter(es + [e], last) == if e.week <= last then CutAfter(es, last) + [e] else CutAfter(es, last)
  {
    assert (es + [e])[..|es|] == es;
  }

  lemma {:induction false} CutDropsAll(es: seq<ScheduleEntry>, last: int)
    requires forall i :: 0 <= i < |es| ==> es[i].week > last
    ensures CutAfter(es, last) == []
  {
    if es != [] {
      CutDropsAll(es[..|es| - 1], last);
    }
  }

  lemma CutPass(base: seq<ScheduleEntry>, cycle: nat, pass: nat, last: int)
    ensures CutAfter(Repeated(base, cycle, pass + 1), last) ==
            CutAfter(Repeated(base, cycle, pass), last) + CutAfter(Shifted(base, pass * cycle), last)
  {
    CutConcat(Repeated(base, cycle, pass), Shifted(base, pass * cycle), last);
  }

  /** Passes that start after the last week contribute nothing. */
  lemma {:induction false} LaterPassesAreCut(base: seq<ScheduleEntry>, cycle: nat, pass: nat, passes: nat, last: int)
    requires pass <= passes && last <= pass * cycle
    requires forall i :: 0 <= i < |base| ==> base[i].week >= 1
    ensures CutAfter(Repeated(base, cycle, passes), last) == CutAfter(Repeated(base, cycle, pass), last)
    decreases passes - pass
  {
    hide Repeated, CutAfter, Shifted;
    if pass < passes {
      LaterPassesAreCut(base, cycle, pass, passes - 1, last);
      MulMonotone(pass, passes - 1, cycle);
      ShiftedIsLate(base, (passes - 1) * cycle, last);
      CutDropsAll(Shifted(base, (passes - 1) * cycle), last);
      CutPass(base, cycle, passes - 1, last);
    }
  }

  lemma ShiftedIsLate(base: seq<ScheduleEntry>, shift: int, last: int)
    requires last <= shift && forall i :: 0 <= i < |base| ==> base[i].week >= 1
    ensures forall i :: 0 <= i < |Shifted(base, shift)| ==> Shifted(base, shift)[i].week > last
  {
  }

  /** Enough passes are enough: how many more there are makes no difference to the cut. */
  lemma AnyNumberOfPasses(base: seq<ScheduleEntry>, cycle: nat, p: nat, q: nat, last: int)
    requires last <= p * cycle && last <= q * cycle
    requires forall i :: 0 <= i < |base| ==> base[i].week >= 1
    ensures CutAfter(Repeated(base, cycle, p), last) == CutAfter(Repeated(base, cycle, q), last)
  {
    if p <= q {
      LaterPassesAreCut(base, cycle, p, q, last);
    } else {
      LaterPassesAreCut(base, cycle, q, p, last);
    }
  }

  lemma PrefixesKept(es: seq<ScheduleEntry>, i: nat, last: int)
    requires i <= |es| && forall j :: 0 <= j < i ==> es[j].week <= last
    requires i < |es| ==> WeeksAscend(es) && es[i].week > last
    ensures CutAfter(es, last) == es[..i]
  {
    assert es == es[..i] + es[i..];
    assert forall j :: i <= j < |es| ==> es[j].week > last;
    CutConcat(es[..i], es[i..], last);
    CutKeepsAll(es[..i], last);
    CutDropsAll(es[i..], last);
  }

  /** One pass has been taken up to the first entry that falls after the last week. */
  ghost predicate TakenUpTo(base: seq<ScheduleEntry>, offset: int, last: int, i: nat) {
    && i <= |base|
    && (forall j :: 0 <= j < i ==> base[j].week + offset <= last)
    && (i < |base| ==> base[i].week + offset > last)
  }

  /** Within a pass, which is in week order, the cut is the part taken. */
  lemma PassIsCut(base: seq<ScheduleEntry>, offset: int, last: int, i: nat)
    requires WeeksAscend(base) && TakenUpTo(base, offset, last, i)
    ensures CutAfter(Shifted(base, offset), last) == Shifted(base, offset)[..i]
  {
    var shifted := Shifted(base, offset);
    assert WeeksAscend(shifted);
    hide CutAfter;
    PrefixesKept(shifted, i, last);
  }

  /** The early break loses nothing: all that follows in the cycle, and later passes, is too late. */
  lemma BreakLosesNothing(base: seq<ScheduleEntry>, cycle: nat, pass: nat, i: nat, last: nat)
    requires WeeksAscend(base) && i < |base| && TakenUpTo(base, pass * cycle, last, i)
    requires forall j :: 0 <= j < |base| ==> 1 <= base[j].week <= cycle
    requires CutAfter(Repeated(base, cycle, pass), last) == Repeated(base, cycle, pass)
    ensures CutAfter(Repeated(base, cycle, last), last) ==
            Repeated(base, cycle, pass) + Shifted(base, pass * cycle)[..i]
  {
    hide Repeated, CutAfter, Shifted;
    PassIsCut(base, pass * cycle, last, i);
    CutPass(base, cycle, pass, last);
    hide WeeksAscend;
    assert (pass + 1) * cycle == pass * cycle + cycle;
    MulMonotone(1, cycle, last);
    assert last <= last * cycle;
    AnyNumberOfPasses(base, cycle, pass + 1, last, last);
  }

  lemma PassCompleted(base: seq<ScheduleEntry>, cycle: nat, pass: nat, last: int)
    requires WeeksAscend(base) && TakenUpTo(base, pass * cycle, last, |base|)
    requires CutAfter(Repeated(base, cycle, pass), last) == Repeated(base, cycle, pass)
    ensures Repeated(base, cycle, pass + 1) == Repeated(base, cycle, pass) + Shifted(base, pass * cycle)[..|base|]
    ensures CutAfter(Repeated(base, cycle, pass + 1), last) == Repeated(base, cycle, pass + 1)
  {
    var shifted := Shifted(base, pass * cycle);
    assert shifted[..|base|] == shifted;
    CutPass(base, cycle, pass, last);
    PassIsCut(base, pass * cycle, last, |base|);
  }

  /** The inner loop: append the shifted entries up to the first that is too late. */
  method TakePass(base: seq<ScheduleEntry>, offset: int, numWeeks: int)
    returns (taken: seq<ScheduleEntry>, i: nat)
    ensures TakenUpTo(base, offset, numWeeks, i) && taken == Shifted(base, offset)[..i]
  {
    taken, i := [], 0;
    while i < |base|
      invariant i <= |base| && taken == Shifted(base, offset)[..i]
      invariant forall j :: 0 <= j < i ==> base[j].week + offset <= numWeeks
    {
      var e := base[i];
      var wk := e.week + offset;
      if wk > numWeeks {
        return;
      }
      taken := taken + [ScheduleEntry(e.home, e.away, wk, None)];
      i := i + 1;
    }
  }

  /** Cycle through the base schedule until a match would fall after the last week. */
  method CycleThrough(base: seq<ScheduleEntry>, numWeeks: nat) returns (entries: seq<ScheduleEntry>)
    requires base != [] && WeeksAscend(base) && forall i :: 0 <= i < |base| ==> base[i].week >= 1
    ensures entries == Periodic(base, numWeeks)
  {
    var cycleLen := MaxWeekNum(base);
    entries := [];
    var pass, offset := 0, 0;
    assert CutAfter([], numWeeks) == [] && Repeated(base, cycleLen, 0) == [];
    assert base[|base| - 1].week == cycleLen;
    while true
      invariant offset == pass * cycleLen
      invariant offset <= numWeeks
      invariant entries == Repeated(base, cycleLen, pass)
      invariant CutAfter(Repeated(base, cycleLen, pass), numWeeks) == Repeated(base, cycleLen, pass)
      decreases numWeeks - offset
    {
      hide Repeated, CutAfter, Shifted;
      var taken, i := TakePass(base, offset, numWeeks);
      entries := entries + taken;
      if i < |base| {
        BreakLosesNothing(base, cycleLen, pass, i, numWeeks);
        return;
      }
      PassCompleted(base, cycleLen, pass, numWeeks);
      pass, offset := pass + 1, offset + cycleLen;
      assert (pass - 1) * cycleLen + cycleLen == pass * cycleLen;
    }
  }

  method CustomSchedule(teamIDs: seq<int>, opts: ScheduleOptions)
    returns (r: Result<seq<ScheduleEntry>, ScheduleError>, ghost natural: map<int, int>)
    requires |teamIDs| >= 2 ==> Rotation(teamIDs) != [] // otherwise the cycle is empty and the loop never ends
    ensures opts.numWeeks < 1 ==> r == Err(BadNumWeeks)
    ensures opts.numWeeks >= 1 && |teamIDs| < 2 ==> r == Err(TooFewTeams)
    ensures opts.numWeeks >= 1 && |teamIDs| >= 2 ==>
              var es := Periodic(HomeAndAway(teamIDs), opts.numWeeks);
              ByesOf(es, natural, opts) && r == Finished(es, natural, opts)
    ensures opts.numWeeks >= 1 && |teamIDs| >= 2 ==> IsSchedule(r, Periodic(HomeAndAway(teamIDs), opts.numWeeks), opts)
  {
    natural := map[];
    hide IsSchedule, Undated, Periodic, HomeAndAway;
    if opts.numWeeks < 1 {
      return Err(BadNumWeeks), natural;
    }
    var base, _ := DoubleRoundRobin(teamIDs, NO_OPTIONS);
    if base.Err? {
      return base, natural;
    }
    HomeAndAwayInOrder(teamIDs);
    var entries := CycleThrough(base.value, opts.numWeeks);
    PeriodicUndated(base.value, opts.numWeeks);
    r, natural := AssignDates(entries, opts);
  }

  lemma MirroredInOrder(es: seq<ScheduleEntry>, shift: int)
    requires WeeksAscend(es)
    ensures WeeksAscend(Mirrored(es, shift))
  {
  }

  /** Whatever the IDs, the home-and-away schedule is in week order and starts at week 1. */
  lemma HomeAndAwayInOrder(teamIDs: seq<int>)
    requires |teamIDs| >= 2
    ensures WeeksAscend(HomeAndAway(teamIDs))
    ensures forall i :: 0 <= i < |HomeAndAway(teamIDs)| ==> HomeAndAway(teamIDs)[i].week >= 1
    ensures |HomeAndAway(teamIDs)| == 2 * |Rotation(teamIDs)|
  {
    hide *;
    RotationInOrder(teamIDs);
    InOrderWithMirror(Rotation(teamIDs), MaxWeek(Rotation(teamIDs)));
    HomeAndAwayIs(teamIDs);
  }

  lemma RotationInOrder(teamIDs: seq<int>)
    requires |teamIDs| >= 2
    ensures WeeksAscend(Rotation(teamIDs))
    ensures var es := Rotation(teamIDs);
            forall i :: 0 <= i < |es| ==> 1 <= es[i].week <= MaxWeek(es)
  {
    CircleInOrder(Seats(teamIDs), |Seats(teamIDs)| - 1);
  }

  lemma HomeAndAwayIs(teamIDs: seq<int>)
    requires |teamIDs| >= 2
    ensures var first := Rotation(teamIDs); HomeAndAway(teamIDs) == first + Mirrored(first, MaxWeek(first))
  {
  }

  lemma InOrderWithMirror(es: seq<ScheduleEntry>, shift: int)
    requires WeeksAscend(es) && forall i :: 0 <= i < |es| ==> 1 <= es[i].week <= shift
    ensures WeeksAscend(es + Mirrored(es, shift))
    ensures forall i :: 0 <= i < 2 * |es| ==> (es + Mirrored(es, shift))[i].week >= 1
  {
    MirroredInOrder(es, shift);
    hide WeeksAscend;
    WeeksAscendConcat(es, Mirrored(es, shift), shift);
  }
}
