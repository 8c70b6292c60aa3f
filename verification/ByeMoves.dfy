/** Where each week's fixtures go, whatever is requested: the latest request of a team counts, and the rest keeps its order. */
module ByeMoves {
  import opened Prelude
  import opened Schedule
  import opened Ordering
  import opened ByeRequests
  import opened ByeProperties

  /** Requests are taken in order of weeks, and a later one of the same team replaces an earlier one. */
  lemma {:induction false} LatestClaims(ws: seq<int>, natural: map<int, int>, bye: map<int, int>, team: int, week: int)
    requires Ascending(ws) && Elements(ws) <= bye.Keys && Injective(natural) && team in natural
    requires week in Elements(ws) && bye[week] == team && forall w :: w in Elements(ws) && bye[w] == team ==> w <= week
    ensures natural[team] in Claims(ws, natural, bye) && Claims(ws, natural, bye)[natural[team]] == week
  {
    var k := |ws| - 1;
    ClaimsStep(ws, k, natural, bye);
    AscendingLast(ws);
    assert ws[..k + 1] == ws;
    hide Claims, Elements, Ascending, HonouredIn;
    if ws[k] != week {
      LatestClaims(ws[..k], natural, bye, team, week);
    }
  }

  lemma AllRequests(bye: map<int, int>)
    ensures Ascending(Ordered(bye.Keys)) && Elements(Ordered(bye.Keys)) == bye.Keys
  {
  }

  lemma NaturalIsOneToOne(es: seq<ScheduleEntry>, natural: map<int, int>)
    requires IsNaturalByes(es, natural)
    ensures Injective(natural)
  {
    hide Idle;
  }

  /** The week is given up for a request: it is the natural bye of a team that asked for another. */
  ghost predicate GivenUp(natural: map<int, int>, bye: map<int, int>, week: int) {
    exists w :: w in bye && bye[w] in natural && natural[bye[w]] == week
  }

  lemma GivenUpAreClaimed(natural: map<int, int>, bye: map<int, int>, week: int)
    ensures Elements(Ordered(bye.Keys)) <= bye.Keys
    ensures week in Claims(Ordered(bye.Keys), natural, bye) <==> GivenUp(natural, bye, week)
  {
    AllRequests(bye);
    var ws := Ordered(bye.Keys);
    hide Ordered;
    ClaimsMeaning(ws, natural, bye);
    var claims := Claims(ws, natural, bye);
    hide Claims, Elements, Ascending;
    if week in claims {
      assert claims[week] in bye && bye[claims[week]] in natural;
    }
    if GivenUp(natural, bye, week) {
      var w :| w in bye && bye[w] in natural && natural[bye[w]] == week;
      assert w in HonouredIn(ws, natural, bye);
    }
  }

  lemma RemapIsPaired(es: seq<ScheduleEntry>, natural: map<int, int>, bye: map<int, int>)
    requires !Overruns(es, natural, bye)
    ensures Elements(Ordered(bye.Keys)) <= bye.Keys
    ensures var src, dst := Sources(es, natural, bye), Destinations(es, natural, bye);
            && |dst| <= |src|
            && Remap(es, natural, bye) == Paired(Claims(Ordered(bye.Keys), natural, bye), src, dst, |dst|)
  {
  }

  /** How the week map is put together: the claims as they are, and the first sources to the destinations in order. */
  lemma RemapParts(es: seq<ScheduleEntry>, natural: map<int, int>, bye: map<int, int>)
    requires !Overruns(es, natural, bye)
    ensures Elements(Ordered(bye.Keys)) <= bye.Keys
    ensures var m, claims := Remap(es, natural, bye), Claims(Ordered(bye.Keys), natural, bye);
            var src, dst := Sources(es, natural, bye), Destinations(es, natural, bye);
            && |dst| <= |src|
            && (forall s :: s in claims ==> s in m && m[s] == claims[s])
            && (forall i :: 0 <= i < |dst| ==> src[i] in m && m[src[i]] == dst[i])
            && (forall s :: s in m ==> s in claims || s in src[..|dst|])
  {
    hide *;
    RemapIsPaired(es, natural, bye);
    SourceMembers(es, natural, bye);
    var src, dst := Sources(es, natural, bye), Destinations(es, natural, bye);
    PairedMeaning(Claims(Ordered(bye.Keys), natural, bye), src, dst, |dst|);
  }

  /** Main result: a team's bye goes to the latest of the weeks it asked for, whoever else asks for what. */
  lemma LatestRequestCounts(es: seq<ScheduleEntry>, natural: map<int, int>, bye: map<int, int>, team: int, week: int)
    requires IsNaturalByes(es, natural) && !Overruns(es, natural, bye) && team in natural
    requires week in bye && bye[week] == team && forall w :: w in bye && bye[w] == team ==> w <= week
    ensures natural[team] in Remap(es, natural, bye) && Remap(es, natural, bye)[natural[team]] == week
  {
    NaturalIsOneToOne(es, natural);
    AllRequests(bye);
    RemapParts(es, natural, bye);
    var ws := Ordered(bye.Keys);
    assert week in Elements(ws) && forall w :: w in Elements(ws) ==> w in bye;
    hide *;
    LatestClaims(ws, natural, bye, team, week);
  }

  /** Main result: of the weeks not given up, those that move keep their order and go where nobody asked. */
  lemma OtherWeeksKeepOrder(es: seq<ScheduleEntry>, natural: map<int, int>, bye: map<int, int>, v: int, w: int)
    requires !Overruns(es, natural, bye)
    requires v in Remap(es, natural, bye) && !GivenUp(natural, bye, v) && w in Remap(es, natural, bye) && !GivenUp(natural, bye, w)
    ensures Remap(es, natural, bye)[v] in Weeks(es) && Remap(es, natural, bye)[v] !in Honoured(natural, bye)
    ensures v < w ==> Remap(es, natural, bye)[v] < Remap(es, natural, bye)[w]
  {
    hide *;
    GivenUpAreClaimed(natural, bye, v);
    GivenUpAreClaimed(natural, bye, w);
    RemapParts(es, natural, bye);
    SourceMembers(es, natural, bye);
    PlacedInOrder(Remap(es, natural, bye), Sources(es, natural, bye), Destinations(es, natural, bye), v, w);
  }

  lemma PlacedInOrder(m: map<int, int>, src: seq<int>, dst: seq<int>, v: int, w: int)
    requires Ascending(src) && Ascending(dst) && |dst| <= |src|
    requires forall i :: 0 <= i < |dst| ==> src[i] in m && m[src[i]] == dst[i]
    requires v in src[..|dst|] && w in src[..|dst|]
    ensures v in m && m[v] in dst && w in m && (v < w ==> m[v] < m[w])
  {
    var i :| 0 <= i < |dst| && src[i] == v;
    var j :| 0 <= j < |dst| && src[j] == w;
    assert dst[i] in dst;
    assert v < w ==> i < j;
  }
}
