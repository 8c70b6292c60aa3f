/**
 Approved bye requests: the weeks of a schedule are permuted so that a team's natural bye falls
 in the week it asked for. Go iterates its maps in no particular order; the methods below pick
 map keys nondeterministically, so what is proved holds for every order.
 */
module ByeRequests {
  import opened Prelude
  import opened Schedule
  import opened Ordering

  function AllTeams(es: seq<ScheduleEntry>): set<int> {
    (set i | 0 <= i < |es| && es[i].home != BYE :: es[i].home) +
    (set i | 0 <= i < |es| && es[i].away != BYE :: es[i].away)
  }

  function PlayingTeams(es: seq<ScheduleEntry>, week: int): set<int> {
    (set i | 0 <= i < |es| && es[i].week == week :: es[i].home) +
    (set i | 0 <= i < |es| && es[i].week == week :: es[i].away)
  }

  predicate Idle(es: seq<ScheduleEntry>, week: int, team: int) {
    week in Weeks(es) && team in AllTeams(es) && team !in PlayingTeams(es, week)
  }

  lemma NotPlayingIsNoMatch(es: seq<ScheduleEntry>, week: int, team: int)
    ensures team !in PlayingTeams(es, week) <==> Plays(es, week, team) == 0
  {
    CountZero(es, PlayingIn(week, team));
  }

  // ---- Which team is off in which week ------------------------------------------------

  /**
   One way the first pass can run: the weeks in the order visited, and for every week with idle
   teams the one its iteration over the teams comes across first.
   */
  ghost predicate IsFirstPass(es: seq<ScheduleEntry>, order: seq<int>, picks: map<int, int>) {
    && Distinct(order) && (forall w :: w in order <==> w in Weeks(es))
    && (forall w :: w in picks ==> Idle(es, w, picks[w]))
    && (forall w, t :: Idle(es, w, t) ==> w in picks)
  }

  /** What the pass leaves in naturalByeWeek: a team picked again is overwritten. */
  function Picked(order: seq<int>, picks: map<int, int>): map<int, int> {
    if order == [] then map[]
    else
      var init, w := order[..|order| - 1], order[|order| - 1];
      var prior := Picked(init, picks);
      if w in picks then prior[picks[w] := w] else prior
  }

  /**
   The outcomes of a first pass, told without its order: each team in it has one of its idle
   weeks, no week is used for two teams, and a week with an idle team has one of them in it.
   */
  ghost predicate IsNaturalByes(es: seq<ScheduleEntry>, natural: map<int, int>) {
    && (forall t :: t in natural ==> Idle(es, natural[t], t))
    && (forall t, u :: t in natural && u in natural && t != u ==> natural[t] != natural[u])
    && (forall w, t :: Idle(es, w, t) ==> exists u :: u in natural && Idle(es, w, u))
  }

  /** A team is recorded in a visited week that picked it, and every visited week records its pick. */
  ghost predicate PicksRecorded(order: seq<int>, picks: map<int, int>, natural: map<int, int>) {
    && (forall t :: t in natural ==> natural[t] in order && natural[t] in picks && picks[natural[t]] == t)
    && (forall w :: w in order && w in picks ==> picks[w] in natural)
  }

  lemma {:induction false} PickedRecords(order: seq<int>, picks: map<int, int>)
    ensures PicksRecorded(order, picks, Picked(order, picks))
  {
    if order != [] {
      var init, w := order[..|order| - 1], order[|order| - 1];
      PickedRecords(init, picks);
      assert order == init + [w];
      assert forall v :: v in order <==> v in init || v == w;
    }
  }

  lemma PassIsNatural(es: seq<ScheduleEntry>, order: seq<int>, picks: map<int, int>)
    requires IsFirstPass(es, order, picks)
    ensures IsNaturalByes(es, Picked(order, picks))
  {
    hide Idle, Picked, Weeks;
    PickedRecords(order, picks);
    forall w, t | Idle(es, w, t)
      ensures exists u :: u in Picked(order, picks) && Idle(es, w, u)
    {
      IdleWeekExists(es, w, t);
      assert w in order && Idle(es, w, picks[w]);
    }
  }

  /** Later weeks overwrite earlier ones. */
  lemma {:induction false} PickedInTwoParts(xs: seq<int>, ys: seq<int>, picks: map<int, int>)
    ensures Picked(xs + ys, picks) == Picked(xs, picks) + Picked(ys, picks)
  {
    if ys == [] {
      assert xs + ys == xs;
    } else {
      var init, w := ys[..|ys| - 1], ys[|ys| - 1];
      assert (xs + ys)[..|xs + ys| - 1] == xs + init;
      PickedInTwoParts(xs, init, picks);
    }
  }

  lemma NaturalIsIdle(es: seq<ScheduleEntry>, natural: map<int, int>, team: int)
    requires IsNaturalByes(es, natural) && team in natural
    ensures Idle(es, natural[team], team)
  {
    hide Idle;
  }

  lemma NaturalIsInjective(es: seq<ScheduleEntry>, natural: map<int, int>, t: int, u: int)
    requires IsNaturalByes(es, natural) && t in natural && u in natural && natural[t] == natural[u]
    ensures t == u
  {
    hide Idle;
  }

  lemma NaturalCovers(es: seq<ScheduleEntry>, natural: map<int, int>, week: int, team: int) returns (other: int)
    requires IsNaturalByes(es, natural) && Idle(es, week, team)
    ensures other in natural && Idle(es, week, other)
  {
    hide Idle;
    other :| other in natural && Idle(es, week, other);
  }

  ghost predicate RecordedIn(natural: map<int, int>, week: int) {
    exists t :: t in natural && natural[t] == week
  }

  /** The team to pick in a week so that the given outcome comes out. */
  ghost function PickFor(es: seq<ScheduleEntry>, natural: map<int, int>, week: int): int {
    if RecordedIn(natural, week) then
      var t :| t in natural && natural[t] == week;
      t
    else if exists t :: t in natural && Idle(es, week, t) then
      var t :| t in natural && Idle(es, week, t);
      t
    else BYE
  }

  lemma PickLeadsThere(es: seq<ScheduleEntry>, natural: map<int, int>, week: int, team: int)
    requires IsNaturalByes(es, natural) && Idle(es, week, team)
    ensures PickFor(es, natural, week) in natural && Idle(es, week, PickFor(es, natural, week))
    ensures RecordedIn(natural, week) ==> natural[PickFor(es, natural, week)] == week
  {
    hide IsNaturalByes, Idle;
    if RecordedIn(natural, week) {
      NaturalIsIdle(es, natural, PickFor(es, natural, week));
    } else {
      var t := NaturalCovers(es, natural, week, team);
    }
  }

  ghost predicate SomeIdle(es: seq<ScheduleEntry>, week: int) {
    exists t :: Idle(es, week, t)
  }

  ghost function PicksFor(es: seq<ScheduleEntry>, natural: map<int, int>): map<int, int> {
    map w | w in Weeks(es) && SomeIdle(es, w) :: PickFor(es, natural, w)
  }

  /** The picks lead to the outcome: they are idle and in it, and recorded weeks pick their team. */
  ghost predicate LeadsTo(es: seq<ScheduleEntry>, picks: map<int, int>, natural: map<int, int>) {
    && (forall w, t :: Idle(es, w, t) ==> w in picks)
    && (forall w :: w in picks ==> Idle(es, w, picks[w]))
    && (forall w :: w in picks ==> picks[w] in natural)
    && (forall t :: t in natural ==> natural[t] in picks && picks[natural[t]] == t)
  }

  lemma IdleWeekExists(es: seq<ScheduleEntry>, week: int, team: int)
    requires Idle(es, week, team)
    ensures week in Weeks(es)
  {
  }

  lemma PicksLeadThere(es: seq<ScheduleEntry>, natural: map<int, int>)
    requires IsNaturalByes(es, natural)
    ensures LeadsTo(es, PicksFor(es, natural), natural)
  {
    hide Idle, PickFor, IsNaturalByes, Weeks, RecordedIn;
    var picks := PicksFor(es, natural);
    forall w, t | Idle(es, w, t)
      ensures w in picks
    {
      IdleWeekExists(es, w, t);
    }
    forall w | w in picks
      ensures Idle(es, w, picks[w]) && picks[w] in natural
    {
      var t :| Idle(es, w, t);
      PickLeadsThere(es, natural, w, t);
    }
    forall t | t in natural
      ensures natural[t] in picks && picks[natural[t]] == t
    {
      NaturalIsIdle(es, natural, t);
      PickLeadsThere(es, natural, natural[t], t);
      IsRecorded(natural, t);
      NaturalIsInjective(es, natural, picks[natural[t]], t);
    }
  }

  lemma IsRecorded(natural: map<int, int>, team: int)
    requires team in natural
    ensures RecordedIn(natural, natural[team])
  {
  }

  /** Visiting the recorded weeks last leaves exactly what they record. */
  lemma LastVisitsCount(es: seq<ScheduleEntry>, natural: map<int, int>, picks: map<int, int>, early: map<int, int>, ys: seq<int>, late: map<int, int>)
    requires LeadsTo(es, picks, natural) && PicksRecorded(ys, picks, late)
    requires forall w :: RecordedIn(natural, w) <==> w in ys
    requires forall t :: t in early ==> t in natural
    ensures early + late == natural
  {
    forall t | t in natural
      ensures t in late && late[t] == natural[t]
    {
      assert RecordedIn(natural, natural[t]);
      assert picks[natural[t]] in late;
      assert RecordedIn(natural, late[t]);
    }
    forall t | t in late
      ensures t in natural
    {
      var w := late[t];
      assert w in picks && picks[w] == t;
      assert picks[w] in natural;
    }
    var all := early + late;
    forall t | t in all
      ensures t in natural && all[t] == natural[t]
    {
    }
    SameMap(all, natural);
  }

  lemma EarlyPicksAreKnown(es: seq<ScheduleEntry>, natural: map<int, int>, picks: map<int, int>, xs: seq<int>, early: map<int, int>)
    requires LeadsTo(es, picks, natural) && PicksRecorded(xs, picks, early)
    ensures forall t :: t in early ==> t in natural
  {
    forall t | t in early
      ensures t in natural
    {
      var w := early[t];
      assert w in picks && picks[w] == t;
      assert picks[w] in natural;
    }
  }

  lemma RecordedWeeks(es: seq<ScheduleEntry>, natural: map<int, int>, week: int)
    requires IsNaturalByes(es, natural) && RecordedIn(natural, week)
    ensures week in Weeks(es)
  {
    var t :| t in natural && natural[t] == week;
    NaturalIsIdle(es, natural, t);
    hide IsNaturalByes, AllTeams, PlayingTeams, Weeks;
  }

  /** Every such outcome is reached: visit the weeks it records last. */
  lemma NaturalIsPass(es: seq<ScheduleEntry>, natural: map<int, int>) returns (order: seq<int>, picks: map<int, int>)
    requires IsNaturalByes(es, natural)
    ensures IsFirstPass(es, order, picks) && Picked(order, picks) == natural
  {
    picks := PicksFor(es, natural);
    PicksLeadThere(es, natural);
    var last := set w | w in Weeks(es) && RecordedIn(natural, w);
    assert forall w :: RecordedIn(natural, w) <==> w in last by {
      forall w | RecordedIn(natural, w)
        ensures w in Weeks(es)
      {
        RecordedWeeks(es, natural, w);
      }
    }
    var xs, ys := Ordered(Weeks(es) - last), Ordered(last);
    hide *;
    order := xs + ys;
    InTwoParts(Weeks(es), last, xs, ys);
    OrderedMembers(last);
    PickedRecords(xs, picks);
    PickedRecords(ys, picks);
    PickedInTwoParts(xs, ys, picks);
    EarlyPicksAreKnown(es, natural, picks, xs, Picked(xs, picks));
    LastVisitsCount(es, natural, picks, Picked(xs, picks), ys, Picked(ys, picks));
    PassOf(es, order, picks, natural);
  }

  lemma PassOf(es: seq<ScheduleEntry>, order: seq<int>, picks: map<int, int>, natural: map<int, int>)
    requires LeadsTo(es, picks, natural) && Distinct(order) && forall w :: w in order <==> w in Weeks(es)
    ensures IsFirstPass(es, order, picks)
  {
    hide Weeks, Idle;
  }

  lemma OrderedMembers(s: set<int>)
    ensures forall x :: x in Ordered(s) <==> x in s
    ensures Distinct(Ordered(s))
  {
    assert forall x :: x in Ordered(s) <==> x in Elements(Ordered(s));
  }

  lemma InTwoParts(weeks: set<int>, last: set<int>, xs: seq<int>, ys: seq<int>)
    requires last <= weeks && xs == Ordered(weeks - last) && ys == Ordered(last)
    ensures Distinct(xs + ys) && forall w :: w in xs + ys <==> w in weeks
  {
    OrderedMembers(weeks - last);
    OrderedMembers(last);
    hide Ordered;
    forall i, j | 0 <= i < j < |xs + ys|
      ensures (xs + ys)[i] != (xs + ys)[j]
    {
      if i < |xs| <= j {
        assert xs[i] in xs && ys[j - |xs|] in ys;
      }
    }
  }

  /** Main result: the maps so described are exactly those that some iteration order leaves. */
  lemma NaturalByesExactlyWhen(es: seq<ScheduleEntry>, natural: map<int, int>)
    ensures IsNaturalByes(es, natural) <==> exists order, picks :: IsFirstPass(es, order, picks) && Picked(order, picks) == natural
  {
    hide IsFirstPass, IsNaturalByes, Picked;
    if IsNaturalByes(es, natural) {
      var order, picks := NaturalIsPass(es, natural);
    }
    if order, picks :| IsFirstPass(es, order, picks) && Picked(order, picks) == natural {
      PassIsNatural(es, order, picks);
    }
  }

  // ---- Where each week's fixtures go -----------------------------------------------

  /** Requests granted in week order: the team's natural week is claimed for the requested one. */
  function Claims(ws: seq<int>, natural: map<int, int>, bye: map<int, int>): map<int, int>
    requires Elements(ws) <= bye.Keys
  {
    if ws == [] then map[]
    else
      var init, w := ws[..|ws| - 1], ws[|ws| - 1];
      assert ws == init + [w];
      ElementsAppend(init, w);
      var prior := Claims(init, natural, bye);
      if bye[w] in natural then prior[natural[bye[w]] := w] else prior
  }

  /** The requests whose team has a natural bye to give. */
  function Honoured(natural: map<int, int>, bye: map<int, int>): set<int> {
    set w | w in bye && bye[w] in natural
  }

  /** Pair the first k unclaimed sources with the first k free destinations. */
  function Paired(claims: map<int, int>, src: seq<int>, dst: seq<int>, k: nat): map<int, int>
    requires k <= |src| && k <= |dst|
  {
    if k == 0 then claims else Paired(claims, src, dst, k - 1)[src[k - 1] := dst[k - 1]]
  }

  function Moved(es: seq<ScheduleEntry>, remap: map<int, int>): (r: seq<ScheduleEntry>)
    ensures |r| == |es|
  {
    seq(|es|, i requires 0 <= i < |es| =>
      if es[i].week in remap then es[i].(week := remap[es[i].week]) else es[i])
  }

  ghost function Sources(es: seq<ScheduleEntry>, natural: map<int, int>, bye: map<int, int>): seq<int> {
    Without(Ordered(Weeks(es)), Claims(Ordered(bye.Keys), natural, bye).Keys)
  }

  ghost function Destinations(es: seq<ScheduleEntry>, natural: map<int, int>, bye: map<int, int>): seq<int> {
    Without(Ordered(Weeks(es)), Honoured(natural, bye))
  }

  /** More free destinations than sources left: remainingSrc[i] is out of range. */
  ghost predicate Overruns(es: seq<ScheduleEntry>, natural: map<int, int>, bye: map<int, int>) {
    |Destinations(es, natural, bye)| > |Sources(es, natural, bye)|
  }

  /** srcToNew as the program leaves it. */
  ghost function Remap(es: seq<ScheduleEntry>, natural: map<int, int>, bye: map<int, int>): map<int, int>
    requires !Overruns(es, natural, bye)
  {
    var dst := Destinations(es, natural, bye);
    Paired(Claims(Ordered(bye.Keys), natural, bye), Sources(es, natural, bye), dst, |dst|)
  }

  /** The reordered schedule, or nothing when the pairing overruns (a run-time panic). */
  ghost function Reorder(es: seq<ScheduleEntry>, natural: map<int, int>, bye: map<int, int>): Option<seq<ScheduleEntry>> {
    if Overruns(es, natural, bye) then None else Some(Moved(es, Remap(es, natural, bye)))
  }

  // ---- applyByeRequests ----------------------------------------------------------------

  lemma WeeksGrow(es: seq<ScheduleEntry>, e: ScheduleEntry)
    ensures Weeks(es + [e]) == Weeks(es) + {e.week}
  {
    var ys := es + [e];
    assert forall i :: 0 <= i < |es| ==> ys[i] == es[i];
    assert ys[|es|] == e;
    forall w | w in Weeks(es)
      ensures w in Weeks(ys)
    {
      var i :| 0 <= i < |es| && es[i].week == w;
      assert ys[i].week == w;
    }
  }

  lemma TeamsGrow(es: seq<ScheduleEntry>, e: ScheduleEntry)
    ensures AllTeams(es + [e]) == AllTeams(es) + ({e.home, e.away} - {BYE})
  {
    var ys := es + [e];
    assert forall i :: 0 <= i < |es| ==> ys[i] == es[i];
    assert ys[|es|] == e;
    forall t | t in AllTeams(es)
      ensures t in AllTeams(ys)
    {
      var i :| 0 <= i < |es| && (es[i].home == t || es[i].away == t) && t != BYE;
      assert ys[i] == es[i];
    }
  }

  lemma PlayingGrows(es: seq<ScheduleEntry>, e: ScheduleEntry, week: int)
    ensures PlayingTeams(es + [e], week) == PlayingTeams(es, week) + if week == e.week then {e.home, e.away} else {}
  {
    var ys := es + [e];
    assert forall i :: 0 <= i < |es| ==> ys[i] == es[i];
    assert ys[|es|] == e;
    forall t | t in PlayingTeams(es, week)
      ensures t in PlayingTeams(ys, week)
    {
      var i :| 0 <= i < |es| && es[i].week == week && (es[i].home == t || es[i].away == t);
      assert ys[i] == es[i];
    }
  }

  lemma NobodyInUnusedWeek(es: seq<ScheduleEntry>, week: int)
    requires week !in Weeks(es)
    ensures PlayingTeams(es, week) == {}
  {
  }

  /** The program's map from weeks to the teams playing in them. */
  ghost predicate IsWeekPlaying(weekPlaying: map<int, set<int>>, es: seq<ScheduleEntry>) {
    weekPlaying.Keys == Weeks(es) && forall w :: w in weekPlaying ==> weekPlaying[w] == PlayingTeams(es, w)
  }

  lemma WeekPlayingGrows(weekPlaying: map<int, set<int>>, es: seq<ScheduleEntry>, e: ScheduleEntry)
    requires IsWeekPlaying(weekPlaying, es)
    ensures var before := if e.week in weekPlaying then weekPlaying[e.week] else {};
            IsWeekPlaying(weekPlaying[e.week := before + {e.home, e.away}], es + [e])
  {
    hide Weeks, PlayingTeams;
    WeeksGrow(es, e);
    if e.week !in weekPlaying {
      NobodyInUnusedWeek(es, e.week);
    }
    var before := if e.week in weekPlaying then weekPlaying[e.week] else {};
    var after := weekPlaying[e.week := before + {e.home, e.away}];
    forall w | w in after
      ensures after[w] == PlayingTeams(es + [e], w)
    {
      PlayingGrows(es, e, w);
    }
  }

  /** The first idle team the iteration over the teams comes across, if there is one. */
  method FindIdle(teams: set<int>, playing: set<int>) returns (found: Option<int>)
    ensures found.Some? ==> found.value in teams && found.value !in playing
    ensures found.None? ==> teams <= playing
  {
    var unchecked := teams;
    while unchecked != {}
      invariant unchecked <= teams && teams - unchecked <= playing
      decreases unchecked
    {
      ghost var _ := SomeElement(unchecked);
      var t :| t in unchecked;
      if t !in playing {
        return Some(t);
      }
      unchecked := unchecked - {t};
    }
    return None;
  }

  method NaturalByeWeeks(entries: seq<ScheduleEntry>) returns (natural: map<int, int>, weeks: set<int>)
    ensures IsNaturalByes(entries, natural)
    ensures weeks == Weeks(entries)
  {
    var allTeams: set<int> := {};
    var weekPlaying: map<int, set<int>> := map[];
    for k := 0 to |entries|
      invariant allTeams == AllTeams(entries[..k])
      invariant IsWeekPlaying(weekPlaying, entries[..k])
    {
      hide AllTeams, IsWeekPlaying;
      var e := entries[k];
      assert entries[..k + 1] == entries[..k] + [e];
      TeamsGrow(entries[..k], e);
      WeekPlayingGrows(weekPlaying, entries[..k], e);
      allTeams := allTeams + ({e.home, e.away} - {BYE});
      var before := if e.week in weekPlaying then weekPlaying[e.week] else {};
      weekPlaying := weekPlaying[e.week := before + {e.home, e.away}];
    }
    assert entries[..|entries|] == entries;
    hide AllTeams, PlayingTeams, Weeks, Picked, IsFirstPass, IsNaturalByes;
    ghost var order, picks;
    natural, order, picks := NaturalByesOf(entries, allTeams, weekPlaying);
    weeks := weekPlaying.Keys;
  }

  /** The weeks visited so far and what they picked. */
  ghost predicate Visited(es: seq<ScheduleEntry>, order: seq<int>, picks: map<int, int>, remaining: set<int>) {
    && Distinct(order) && (forall w :: w in order <==> w in Weeks(es) && w !in remaining)
    && (forall w :: w in picks ==> w in order && Idle(es, w, picks[w]))
    && (forall w, t :: w in order && Idle(es, w, t) ==> w in picks)
  }

  lemma VisitWeek(es: seq<ScheduleEntry>, order: seq<int>, picks: map<int, int>, remaining: set<int>, week: int, found: Option<int>)
    requires Visited(es, order, picks, remaining) && week in remaining && week in Weeks(es)
    requires found.Some? ==> Idle(es, week, found.value)
    requires found.None? ==> forall t :: !Idle(es, week, t)
    ensures var picks' := if found.Some? then picks[week := found.value] else picks;
            && Visited(es, order + [week], picks', remaining - {week})
            && Picked(order + [week], picks') == if found.Some? then Picked(order, picks)[found.value := week] else Picked(order, picks)
  {
    hide Weeks, Idle;
    assert (order + [week])[..|order|] == order;
    if found.Some? {
      PickedIgnores(order, picks, week, found.value);
    }
  }

  lemma {:induction false} PickedIgnores(order: seq<int>, picks: map<int, int>, week: int, team: int)
    requires week !in order
    ensures Picked(order, picks[week := team]) == Picked(order, picks)
  {
    if order != [] {
      PickedIgnores(order[..|order| - 1], picks, week, team);
    }
  }

  lemma WeekIdle(es: seq<ScheduleEntry>, week: int)
    requires week in Weeks(es)
    ensures forall t :: Idle(es, week, t) <==> t in AllTeams(es) && t !in PlayingTeams(es, week)
  {
  }

  /** The first pass: the weeks are visited, and each week's teams looked at, in no particular order. */
  method NaturalByesOf(ghost es: seq<ScheduleEntry>, allTeams: set<int>, weekPlaying: map<int, set<int>>)
    returns (natural: map<int, int>, ghost order: seq<int>, ghost picks: map<int, int>)
    requires allTeams == AllTeams(es) && weekPlaying.Keys == Weeks(es)
    requires forall w :: w in weekPlaying ==> weekPlaying[w] == PlayingTeams(es, w)
    ensures IsFirstPass(es, order, picks) && natural == Picked(order, picks)
    ensures IsNaturalByes(es, natural)
  {
    natural, order, picks := map[], [], map[];
    var remaining := weekPlaying.Keys;
    while remaining != {}
      invariant remaining <= weekPlaying.Keys
      invariant Visited(es, order, picks, remaining) && natural == Picked(order, picks)
      decreases remaining
    {
      hide AllTeams, PlayingTeams, Weeks, Idle, Visited, Picked;
      ghost var _ := SomeElement(remaining);
      var w :| w in remaining;
      var idle := FindIdle(allTeams, weekPlaying[w]);
      WeekIdle(es, w);
      VisitWeek(es, order, picks, remaining, w, idle);
      order := order + [w];
      if idle.Some? {
        natural := natural[idle.value := w];
        picks := picks[w := idle.value];
      }
      remaining := remaining - {w};
    }
    PassIsNatural(es, order, picks);
  }

  function HonouredIn(ws: seq<int>, natural: map<int, int>, bye: map<int, int>): set<int>
    requires Elements(ws) <= bye.Keys
  {
    set w | w in Elements(ws) && bye[w] in natural
  }

  lemma ClaimsStep(ws: seq<int>, k: nat, natural: map<int, int>, bye: map<int, int>)
    requires Ascending(ws) && Elements(ws) <= bye.Keys && k < |ws|
    ensures ws[k] in bye && Elements(ws[..k]) <= bye.Keys && Elements(ws[..k + 1]) <= bye.Keys
    ensures ws[k] !in HonouredIn(ws[..k], natural, bye)
    ensures bye[ws[k]] !in natural ==>
              && Claims(ws[..k + 1], natural, bye) == Claims(ws[..k], natural, bye)
              && HonouredIn(ws[..k + 1], natural, bye) == HonouredIn(ws[..k], natural, bye)
    ensures bye[ws[k]] in natural ==>
              && Claims(ws[..k + 1], natural, bye) == Claims(ws[..k], natural, bye)[natural[bye[ws[k]]] := ws[k]]
              && HonouredIn(ws[..k + 1], natural, bye) == HonouredIn(ws[..k], natural, bye) + {ws[k]}
  {
    assert ws[k] in Elements(ws);
    assert ws[..k + 1] == ws[..k] + [ws[k]];
    ElementsAppend(ws[..k], ws[k]);
    assert ws[..k + 1][..k] == ws[..k];
    assert ws == ws[..k] + ws[k..];
    ElementsConcat(ws[..k], ws[k..]);
  }

  /** Claim natural weeks for the requests, in week order. */
  method ClaimWeeks(natural: map<int, int>, bye: map<int, int>)
    returns (srcToNew: map<int, int>, usedAsNew: set<int>)
    ensures srcToNew == Claims(Ordered(bye.Keys), natural, bye)
    ensures usedAsNew == Honoured(natural, bye)
  {
    var reqs := SortedElements(bye.Keys);
    assert HonouredIn(reqs, natural, bye) == Honoured(natural, bye);
    srcToNew, usedAsNew := map[], {};
    hide Claims, Elements, Ordered, Honoured, HonouredIn;
    NoClaims(natural, bye);
    for k := 0 to |reqs|
      invariant Elements(reqs[..k]) <= bye.Keys
      invariant srcToNew == Claims(reqs[..k], natural, bye)
      invariant usedAsNew == HonouredIn(reqs[..k], natural, bye)
    {
      var week := reqs[k];
      ClaimsStep(reqs, k, natural, bye);
      if bye[week] !in natural || week in usedAsNew {
        continue;
      }
      srcToNew := srcToNew[natural[bye[week]] := week];
      usedAsNew := usedAsNew + {week};
    }
    assert reqs[..|reqs|] == reqs;
  }

  lemma NoClaims(natural: map<int, int>, bye: map<int, int>)
    ensures Elements([]) <= bye.Keys && Claims([], natural, bye) == map[] && HonouredIn([], natural, bye) == {}
  {
  }

  method Remaining(weeks: seq<int>, taken: set<int>) returns (r: seq<int>)
    ensures r == Without(weeks, taken)
  {
    r := [];
    for k := 0 to |weeks|
      invariant r == Without(weeks[..k], taken)
    {
      assert weeks[..k + 1][..k] == weeks[..k];
      if weeks[k] !in taken {
        r := r + [weeks[k]];
      }
    }
    assert weeks[..|weeks|] == weeks;
  }

  method ApplyByeRequests(entries: seq<ScheduleEntry>, byeByWeek: map<int, int>)
    returns (r: Option<seq<ScheduleEntry>>, ghost natural: map<int, int>)
    ensures byeByWeek == map[] ==> r == Some(entries)
    ensures byeByWeek != map[] ==> IsNaturalByes(entries, natural) && r == Reorder(entries, natural, byeByWeek)
  {
    hide Claims, Ordered, Weeks, Honoured, Without, IsNaturalByes, Reorder;
    natural := map[];
    if |byeByWeek| == 0 {
      return Some(entries), natural;
    }
    var naturalByeWeek, weeks := NaturalByeWeeks(entries);
    natural := naturalByeWeek;
    var allWeeks := SortedElements(weeks);
    var srcToNew, usedAsNew := ClaimWeeks(naturalByeWeek, byeByWeek);
    var remainingSrc := Remaining(allWeeks, srcToNew.Keys);
    var remainingNew := Remaining(allWeeks, usedAsNew);
    r := PairAndMove(entries, natural, byeByWeek, srcToNew, remainingSrc, remainingNew);
  }

  /** The last step: pair what remains, then rewrite the week numbers. */
  method PairAndMove(entries: seq<ScheduleEntry>, ghost natural: map<int, int>, ghost bye: map<int, int>,
                     claims: map<int, int>, remainingSrc: seq<int>, remainingNew: seq<int>)
    returns (r: Option<seq<ScheduleEntry>>)
    requires claims == Claims(Ordered(bye.Keys), natural, bye)
    requires remainingSrc == Sources(entries, natural, bye)
    requires remainingNew == Destinations(entries, natural, bye)
    ensures r == Reorder(entries, natural, bye)
  {
    hide Claims, Ordered, Sources, Destinations;
    var srcToNew := claims;
    for i := 0 to |remainingNew|
      invariant i <= |remainingSrc|
      invariant srcToNew == Paired(claims, remainingSrc, remainingNew, i)
    {
      if i == |remainingSrc| {
        return None;
      }
      srcToNew := srcToNew[remainingSrc[i] := remainingNew[i]];
    }
    assert srcToNew == Remap(entries, natural, bye);
    var result := MoveWeeks(entries, srcToNew);
    return Some(result);
  }

  method MoveWeeks(entries: seq<ScheduleEntry>, srcToNew: map<int, int>) returns (result: seq<ScheduleEntry>)
    ensures result == Moved(entries, srcToNew)
  {
    result := [];
    for i := 0 to |entries|
      invariant result == Moved(entries, srcToNew)[..i]
    {
      var e := entries[i];
      if e.week in srcToNew {
        e := e.(week := srcToNew[e.week]);
      }
      result := result + [e];
    }
  }
}
