/**
 When the renumbering keeps weeks apart. Two requests of one team use up two free weeks but claim
 only one, so some weeks are left where they are; whether they are in the way decides everything.
 */
module ByeMatching {
  import opened Prelude
  import opened Schedule
  import opened Ordering
  import opened ByeRequests
  import opened ByeProperties
  import opened ByeOutcomes

  ghost predicate Reached(m: map<int, int>, x: int) {
    exists k :: k in m && m[k] == x
  }

  /** Every week left alone was asked for, and its request is not the one that a bye was moved to. */
  ghost predicate Fits(es: seq<ScheduleEntry>, natural: map<int, int>, bye: map<int, int>) {
    var src, dst := Sources(es, natural, bye), Destinations(es, natural, bye);
    forall i :: |dst| <= i < |src| ==>
      src[i] in Honoured(natural, bye) && !Reached(Claims(Ordered(bye.Keys), natural, bye), src[i])
  }

  // ---- Fitting is being one to one -------------------------------------------------------------

  /** A week goes to one place only. */
  lemma TakesOnce(es: seq<ScheduleEntry>, natural: map<int, int>, bye: map<int, int>, week: int, p: Way, a: int, q: Way, b: int)
    requires Takes(es, natural, bye, week, a, p) && Takes(es, natural, bye, week, b, q)
    ensures a == b
  {
    SourceMembers(es, natural, bye);
    var src := Sources(es, natural, bye);
    hide Claims, Ordered, Sources, Destinations, Weeks, Honoured;
    if p.Claimed? || q.Claimed? {
      assert week !in src;
    }
  }

  lemma TotalTakes(es: seq<ScheduleEntry>, natural: map<int, int>, bye: map<int, int>, week: int, to: int, way: Way)
    requires IsNaturalByes(es, natural) && !Overruns(es, natural, bye) && week in Weeks(es)
    requires Takes(es, natural, bye, week, to, way)
    ensures week in Total(es, Remap(es, natural, bye)) && Total(es, Remap(es, natural, bye))[week] == to
  {
    hide *;
    var other := WayOf(es, natural, bye, week);
    TakesOnce(es, natural, bye, week, way, to, other, Total(es, Remap(es, natural, bye))[week]);
  }

  /** A fitting week left alone is no other week's destination. */
  lemma LeftAloneIsFree(es: seq<ScheduleEntry>, natural: map<int, int>, bye: map<int, int>, v: int, w: int, p: Way, q: Way)
    requires IsNaturalByes(es, natural) && Fits(es, natural, bye)
    requires Takes(es, natural, bye, v, v, p) && p.LeftAlone? && !q.LeftAlone?
    ensures !Takes(es, natural, bye, w, v, q)
  {
    hide IsNaturalByes, Takes, Fits;
    WayFacts(es, natural, bye, v, v, p);
    FitsIs(es, natural, bye);
    if Takes(es, natural, bye, w, v, q) {
      WayFacts(es, natural, bye, w, v, q);
      hide Claims, Ordered, Sources, Destinations, Weeks, Honoured;
      assert false;
    }
  }

  lemma FittingIsApart(es: seq<ScheduleEntry>, natural: map<int, int>, bye: map<int, int>)
    requires IsNaturalByes(es, natural) && !Overruns(es, natural, bye) && Fits(es, natural, bye)
    ensures Injective(Total(es, Remap(es, natural, bye)))
  {
    var m := Total(es, Remap(es, natural, bye));
    hide Fits, IsNaturalByes, Total, Takes, Weeks;
    forall v, w | v in m && w in m && v != w
      ensures m[v] != m[w]
    {
      TotalAt(es, Remap(es, natural, bye), v);
      TotalAt(es, Remap(es, natural, bye), w);
      hide Remap, Overruns;
      var p := WayOf(es, natural, bye, v);
      var q := WayOf(es, natural, bye, w);
      if m[v] == m[w] {
        WaysMeet(es, natural, bye, v, w, m[v], p, q);
        if p.LeftAlone? {
          LeftAloneStays(es, natural, bye, v, m[v], p);
          LeftAloneIsFree(es, natural, bye, v, w, p, q);
        } else {
          LeftAloneStays(es, natural, bye, w, m[w], q);
          LeftAloneIsFree(es, natural, bye, w, v, q, p);
        }
        assert false;
      }
    }
  }

  /** A week left alone that a bye was moved to is shared with the week of that bye. */
  lemma BehindAClaim(es: seq<ScheduleEntry>, natural: map<int, int>, bye: map<int, int>, i: nat)
    requires IsNaturalByes(es, natural) && !Overruns(es, natural, bye)
    requires |Destinations(es, natural, bye)| <= i < |Sources(es, natural, bye)|
    requires Injective(Total(es, Remap(es, natural, bye)))
    ensures !Reached(Claims(Ordered(bye.Keys), natural, bye), Sources(es, natural, bye)[i])
  {
    hide *;
    var s := Sources(es, natural, bye)[i];
    if Reached(Claims(Ordered(bye.Keys), natural, bye), s) {
      ClaimsGoToRequests(es, natural, bye);
      var other := ReachedFrom(Claims(Ordered(bye.Keys), natural, bye), s);
      ClaimIsTaken(es, natural, bye, other);
      SourceIsWeek(es, natural, bye, i);
      SharedIsNotApart(es, natural, bye, i, other, Claimed);
      assert false;
    }
  }

  lemma ReachedFrom(m: map<int, int>, x: int) returns (k: int)
    requires Reached(m, x)
    ensures k in m && m[k] == x
  {
    k :| k in m && m[k] == x;
  }

  /** A week left alone that nobody asked for is shared with the week paired with it. */
  lemma BehindAPairing(es: seq<ScheduleEntry>, natural: map<int, int>, bye: map<int, int>, i: nat)
    requires IsNaturalByes(es, natural) && !Overruns(es, natural, bye)
    requires |Destinations(es, natural, bye)| <= i < |Sources(es, natural, bye)|
    requires Injective(Total(es, Remap(es, natural, bye)))
    ensures Sources(es, natural, bye)[i] in Honoured(natural, bye)
  {
    hide *;
    var src, dst := Sources(es, natural, bye), Destinations(es, natural, bye);
    var s := src[i];
    if s !in Honoured(natural, bye) {
      SourceIsWeek(es, natural, bye, i);
      var j := FreeWeek(es, natural, bye, s);
      SourceIsWeek(es, natural, bye, j);
      PairingIsTaken(es, natural, bye, j);
      SharedIsNotApart(es, natural, bye, i, src[j], PairedWith(j));
      assert false;
    }
  }

  lemma FreeWeek(es: seq<ScheduleEntry>, natural: map<int, int>, bye: map<int, int>, week: int) returns (j: nat)
    requires week in Weeks(es) && week !in Honoured(natural, bye)
    ensures j < |Destinations(es, natural, bye)| && Destinations(es, natural, bye)[j] == week
  {
    SourceMembers(es, natural, bye);
    var dst := Destinations(es, natural, bye);
    hide Destinations, Weeks, Honoured;
    j :| 0 <= j < |dst| && dst[j] == week;
  }

  /** Another week on its way to a week left alone makes two of one. */
  lemma SharedIsNotApart(es: seq<ScheduleEntry>, natural: map<int, int>, bye: map<int, int>, i: nat, other: int, way: Way)
    requires IsNaturalByes(es, natural) && !Overruns(es, natural, bye) && other in Weeks(es) && !way.LeftAlone?
    requires |Destinations(es, natural, bye)| <= i < |Sources(es, natural, bye)|
    requires Takes(es, natural, bye, other, Sources(es, natural, bye)[i], way)
    ensures !Injective(Total(es, Remap(es, natural, bye)))
  {
    hide *;
    var s := Sources(es, natural, bye)[i];
    SourceIsWeek(es, natural, bye, i);
    LeftAloneTakes(es, natural, bye, i);
    TotalTakes(es, natural, bye, other, s, way);
    TotalTakes(es, natural, bye, s, s, LeftAlone(i));
    if other == s {
      OneWay(es, natural, bye, s, i, way);
      assert false;
    }
    NotApart(Total(es, Remap(es, natural, bye)), other, s);
  }

  /** A source is not claimed, and stands in one place among the sources. */
  lemma OneWay(es: seq<ScheduleEntry>, natural: map<int, int>, bye: map<int, int>, week: int, i: nat, way: Way)
    requires Takes(es, natural, bye, week, week, LeftAlone(i)) && Takes(es, natural, bye, week, week, way)
    ensures way.LeftAlone?
  {
    SourceMembers(es, natural, bye);
    var src := Sources(es, natural, bye);
    hide Claims, Ordered, Sources, Destinations, Weeks, Honoured;
    assert week in src;
  }

  lemma ApartIsFitting(es: seq<ScheduleEntry>, natural: map<int, int>, bye: map<int, int>)
    requires IsNaturalByes(es, natural) && !Overruns(es, natural, bye) && Injective(Total(es, Remap(es, natural, bye)))
    ensures Fits(es, natural, bye)
  {
    hide *;
    var src, dst := Sources(es, natural, bye), Destinations(es, natural, bye);
    forall i | |dst| <= i < |src|
      ensures src[i] in Honoured(natural, bye) && !Reached(Claims(Ordered(bye.Keys), natural, bye), src[i])
    {
      BehindAClaim(es, natural, bye, i);
      BehindAPairing(es, natural, bye, i);
    }
    FitsIs(es, natural, bye);
  }

  lemma FitsIs(es: seq<ScheduleEntry>, natural: map<int, int>, bye: map<int, int>)
    ensures var src, dst := Sources(es, natural, bye), Destinations(es, natural, bye);
            Fits(es, natural, bye) <==> forall i :: |dst| <= i < |src| ==>
              src[i] in Honoured(natural, bye) && !Reached(Claims(Ordered(bye.Keys), natural, bye), src[i])
  {
    hide Sources, Destinations, Honoured, Claims, Ordered;
  }

  lemma NotApart(m: map<int, int>, v: int, w: int)
    requires v in m && w in m && v != w && m[v] == m[w]
    ensures !Injective(m)
  {
  }

  lemma SourceIsWeek(es: seq<ScheduleEntry>, natural: map<int, int>, bye: map<int, int>, i: nat)
    requires i < |Sources(es, natural, bye)|
    ensures Sources(es, natural, bye)[i] in Weeks(es)
  {
    SourceMembers(es, natural, bye);
    hide Sources, Weeks;
    assert Sources(es, natural, bye)[i] in Sources(es, natural, bye);
  }

  // ---- One match a week ------------------------------------------------------------------------

  /** Any two weeks have a team that plays in both. */
  ghost predicate WeeksShareTeams(es: seq<ScheduleEntry>) {
    forall v, w :: v in Weeks(es) && w in Weeks(es) && v != w ==> ShareATeam(es, v, w)
  }

  ghost predicate ShareATeam(es: seq<ScheduleEntry>, v: int, w: int) {
    exists t :: t != BYE && Plays(es, v, t) >= 1 && Plays(es, w, t) >= 1
  }

  /** If every entry that p counts is one that q counts, q counts as many. */
  lemma {:induction false} CountImplies(xs: seq<ScheduleEntry>, p: ScheduleEntry -> bool, ys: seq<ScheduleEntry>, q: ScheduleEntry -> bool)
    requires |xs| == |ys| && forall i :: 0 <= i < |xs| && p(xs[i]) ==> q(ys[i])
    ensures Count(xs, p) <= Count(ys, q)
  {
    if xs != [] {
      CountImplies(xs[..|xs| - 1], p, ys[..|ys| - 1], q);
    }
  }

  /** A team plays its matches of both weeks in the week they are thrown together in. */
  lemma ThrownTogether(es: seq<ScheduleEntry>, m: map<int, int>, v: int, w: int, team: int)
    requires m.Keys == Weeks(es) && v in m && w in m && v != w && m[v] == m[w]
    ensures Plays(Moved(es, m), m[v], team) >= Plays(es, v, team) + Plays(es, w, team)
  {
    var either := (e: ScheduleEntry) => PlayingIn(v, team)(e) || PlayingIn(w, team)(e);
    CountSplit(es, either, PlayingIn(v, team), PlayingIn(w, team));
    hide Weeks;
    CountImplies(es, either, Moved(es, m), PlayingIn(m[v], team));
  }

  lemma ApartKeepsMatching(es: seq<ScheduleEntry>, m: map<int, int>)
    requires m.Keys == Weeks(es) && Injective(m) && IsWeeklyMatching(es)
    ensures IsWeeklyMatching(Moved(es, m))
  {
    hide Plays, Weeks, Moved, Injective;
    forall week, team | team != BYE
      ensures Plays(Moved(es, m), week, team) <= 1
    {
      if week in Weeks(Moved(es, m)) {
        var v := SourceOf(es, m, week);
        WeeksMoveTogether(es, m, v);
        assert Plays(es, v, team) <= 1;
      } else {
        UnusedWeek(Moved(es, m), week, team);
      }
    }
  }

  lemma SourceOf(es: seq<ScheduleEntry>, m: map<int, int>, week: int) returns (v: int)
    requires m.Keys == Weeks(es) && week in Weeks(Moved(es, m))
    ensures v in m && m[v] == week
  {
    WeekInUse(Moved(es, m), week);
    var i :| 0 <= i < |es| && Moved(es, m)[i].week == week;
    WeekInUse(es, es[i].week);
    hide Weeks;
    v := es[i].week;
  }

  lemma MatchingKeepsApart(es: seq<ScheduleEntry>, m: map<int, int>)
    requires m.Keys == Weeks(es) && WeeksShareTeams(es) && IsWeeklyMatching(Moved(es, m))
    ensures Injective(m)
  {
    hide Plays, Weeks, Moved;
    forall v, w | v in m && w in m && v != w
      ensures m[v] != m[w]
    {
      if m[v] == m[w] {
        assert ShareATeam(es, v, w);
        var t :| t != BYE && Plays(es, v, t) >= 1 && Plays(es, w, t) >= 1;
        assert Plays(Moved(es, m), m[v], t) <= 1;
        ThrownTogether(es, m, v, w, t);
        assert false;
      }
    }
  }

  /** A request map that fits keeps every team to one match a week. */
  lemma FittingKeepsMatching(es: seq<ScheduleEntry>, natural: map<int, int>, bye: map<int, int>)
    requires IsNaturalByes(es, natural) && !Overruns(es, natural, bye) && IsWeeklyMatching(es) && Fits(es, natural, bye)
    ensures IsWeeklyMatching(Reorder(es, natural, bye).value)
  {
    hide *;
    ReorderIs(es, natural, bye);
    MovedByTotal(es, Remap(es, natural, bye));
    FittingIsApart(es, natural, bye);
    TotalKeys(es, Remap(es, natural, bye));
    ApartKeepsMatching(es, Total(es, Remap(es, natural, bye)));
  }

  lemma TotalKeys(es: seq<ScheduleEntry>, m: map<int, int>)
    ensures Total(es, m).Keys == Weeks(es)
  {
    hide Weeks;
  }

  /**
   Main result: where any two weeks share a team, the result has one match a team and week exactly
   when the requests fit. There is no condition on the requests but that the program returns.
   */
  lemma MatchingKeptExactlyWhen(es: seq<ScheduleEntry>, natural: map<int, int>, bye: map<int, int>)
    requires IsNaturalByes(es, natural) && !Overruns(es, natural, bye)
    requires IsWeeklyMatching(es) && WeeksShareTeams(es)
    ensures Reorder(es, natural, bye).Some?
    ensures IsWeeklyMatching(Reorder(es, natural, bye).value) <==> Fits(es, natural, bye)
  {
    hide *;
    ReorderIs(es, natural, bye);
    if Fits(es, natural, bye) {
      FittingKeepsMatching(es, natural, bye);
    }
    if IsWeeklyMatching(Reorder(es, natural, bye).value) {
      MovedByTotal(es, Remap(es, natural, bye));
      TotalKeys(es, Remap(es, natural, bye));
      MatchingKeepsApart(es, Total(es, Remap(es, natural, bye)));
      ApartIsFitting(es, natural, bye);
    }
  }

  // ---- All weeks in use ------------------------------------------------------------------------

  ghost function Image(m: map<int, int>): set<int> {
    set k | k in m :: m[k]
  }

  lemma {:induction false} ImageIsNoLarger(m: map<int, int>)
    ensures |Image(m)| <= |m.Keys|
    decreases |m.Keys|
  {
    if m.Keys == {} {
      assert Image(m) == {};
    } else {
      var k := SomeElement(m.Keys);
      var rest := m - {k};
      assert rest.Keys == m.Keys - {k};
      ImageIsNoLarger(rest);
      ImageWithout(m, k);
    }
  }

  lemma ImageWithout(m: map<int, int>, k: int)
    requires k in m
    ensures Image(m) == Image(m - {k}) + {m[k]}
  {
    var rest := m - {k};
    forall x
      ensures x in Image(m) <==> x in Image(rest) + {m[k]}
    {
      if x in Image(m) {
        var j :| j in m && m[j] == x;
        assert j != k ==> j in rest && rest[j] == x;
      }
    }
    SameElements(Image(m), Image(rest) + {m[k]});
  }

  lemma ImageIsSmaller(m: map<int, int>, v: int, w: int)
    requires v in m && w in m && v != w && m[v] == m[w]
    ensures |Image(m)| < |m.Keys|
  {
    var rest := m - {w};
    assert rest.Keys == m.Keys - {w};
    ImageIsNoLarger(rest);
    ImageWithout(m, w);
    assert v in rest && rest[v] == m[w];
    assert Image(rest) + {m[w]} == Image(rest);
  }

  /** If all weeks are still in use, no two were thrown together. */
  lemma KeptWeeksFit(es: seq<ScheduleEntry>, natural: map<int, int>, bye: map<int, int>)
    requires IsNaturalByes(es, natural) && !Overruns(es, natural, bye)
    requires Weeks(Reorder(es, natural, bye).value) == Weeks(es)
    ensures Fits(es, natural, bye)
  {
    var m := Total(es, Remap(es, natural, bye));
    ReorderIs(es, natural, bye);
    MovedByTotal(es, Remap(es, natural, bye));
    TotalKeys(es, Remap(es, natural, bye));
    hide *;
    OntoIsApart(es, m);
    ApartIsFitting(es, natural, bye);
  }

  lemma OntoIsApart(es: seq<ScheduleEntry>, m: map<int, int>)
    requires m.Keys == Weeks(es) && Weeks(Moved(es, m)) == Weeks(es)
    ensures Injective(m)
  {
    hide Weeks, Moved;
    forall x | x in Weeks(es)
      ensures x in Image(m)
    {
      var v := SourceOf(es, m, x);
    }
    forall x | x in Image(m)
      ensures x in Weeks(es)
    {
      var v :| v in m && m[v] == x;
      MovedReachesAll(es, m, v);
    }
    SameElements(Image(m), Weeks(es));
    forall v, w | v in m && w in m && v != w
      ensures m[v] != m[w]
    {
      if m[v] == m[w] {
        ImageIsSmaller(m, v, w);
        assert false;
      }
    }
  }

  lemma MovedReachesAll(es: seq<ScheduleEntry>, m: map<int, int>, v: int)
    requires m.Keys == Weeks(es) && v in m
    ensures m[v] in Weeks(Moved(es, m))
  {
    WeekInUse(es, v);
    var i :| 0 <= i < |es| && es[i].week == v;
    WeekInUse(Moved(es, m), m[v]);
    hide Weeks;
    assert Moved(es, m)[i].week == m[v];
  }
}
