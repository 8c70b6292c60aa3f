/**
 What a request map leads to, exactly: when the program panics, when the result depends on the
 order in which Go iterates its maps, and when weeks are thrown together. All conditions are
 about the schedule and the requests, for every order.
 */
module ByeOutcomes {
  import opened Prelude
  import opened Schedule
  import opened Ordering
  import opened ByeRequests
  import opened ByeProperties

  // ---- One idle team a week ----------------------------------------------------------------

  ghost predicate OneIdleTeam(es: seq<ScheduleEntry>) {
    forall w, t, u :: Idle(es, w, t) && Idle(es, w, u) ==> t == u
  }

  ghost predicate HasBye(es: seq<ScheduleEntry>, team: int) {
    exists w :: Idle(es, w, team)
  }

  ghost predicate IdleTwice(es: seq<ScheduleEntry>, team: int) {
    exists v, w :: v != w && Idle(es, v, team) && Idle(es, w, team)
  }

  /** The requests of teams that have a bye to give. */
  ghost function RequestedWeeks(es: seq<ScheduleEntry>, bye: map<int, int>): (ws: set<int>)
    ensures ws <= bye.Keys
  {
    set w | w in bye && HasBye(es, bye[w])
  }

  lemma NaturalTeamsAre(es: seq<ScheduleEntry>, natural: map<int, int>, team: int)
    requires IsNaturalByes(es, natural) && OneIdleTeam(es)
    ensures team in natural <==> HasBye(es, team)
  {
    hide Idle, IsNaturalByes;
    if team in natural {
      NaturalIsIdle(es, natural, team);
    }
    if HasBye(es, team) {
      var w :| Idle(es, w, team);
      var u := NaturalCovers(es, natural, w, team);
    }
  }

  lemma HonouredAre(es: seq<ScheduleEntry>, natural: map<int, int>, bye: map<int, int>)
    requires IsNaturalByes(es, natural) && OneIdleTeam(es)
    ensures Honoured(natural, bye) == RequestedWeeks(es, bye)
  {
    hide IsNaturalByes, OneIdleTeam, HasBye;
    forall w
      ensures w in Honoured(natural, bye) <==> w in RequestedWeeks(es, bye)
    {
      if w in bye {
        NaturalTeamsAre(es, natural, bye[w]);
      }
    }
    SameElements(Honoured(natural, bye), RequestedWeeks(es, bye));
  }

  // ---- The panic ---------------------------------------------------------------------------

  /** Fewer of the requested weeks exist than teams with a bye are named. */
  ghost predicate TooFewWeeks(es: seq<ScheduleEntry>, bye: map<int, int>) {
    |RequestedWeeks(es, bye) * Weeks(es)| < |HonouredTeams(RequestedWeeks(es, bye), bye)|
  }

  /** Main result: the program indexes out of range, in every iteration order or in none, exactly then. */
  lemma PanicsExactlyWhen(es: seq<ScheduleEntry>, natural: map<int, int>, bye: map<int, int>)
    requires IsNaturalByes(es, natural) && OneIdleTeam(es)
    ensures Reorder(es, natural, bye) == None <==> TooFewWeeks(es, bye)
  {
    hide *;
    HonouredAre(es, natural, bye);
    OverrunsExactlyWhen(es, natural, bye);
    TooFewWeeksIs(es, bye);
  }

  lemma TooFewWeeksIs(es: seq<ScheduleEntry>, bye: map<int, int>)
    ensures TooFewWeeks(es, bye) <==>
            |RequestedWeeks(es, bye) * Weeks(es)| < |HonouredTeams(RequestedWeeks(es, bye), bye)|
  {
  }

  // ---- Where a week goes -------------------------------------------------------------------

  /** The week map with the weeks it leaves alone. */
  ghost function Total(es: seq<ScheduleEntry>, m: map<int, int>): map<int, int> {
    map w | w in Weeks(es) :: if w in m then m[w] else w
  }

  lemma TotalAt(es: seq<ScheduleEntry>, m: map<int, int>, w: int)
    ensures w in Total(es, m) <==> w in Weeks(es)
    ensures w in Weeks(es) ==> Total(es, m)[w] == if w in m then m[w] else w
  {
    hide Weeks;
  }

  lemma MovedByTotal(es: seq<ScheduleEntry>, m: map<int, int>)
    ensures Moved(es, m) == Moved(es, Total(es, m))
  {
    forall i | 0 <= i < |es|
      ensures Moved(es, m)[i] == Moved(es, Total(es, m))[i]
    {
      WeekInUse(es, es[i].week);
      TotalAt(es, m, es[i].week);
    }
  }

  /** The three ways of a week: claimed for a request, paired with a free week, or left alone. */
  datatype Way = Claimed | PairedWith(i: nat) | LeftAlone(i: nat)

  ghost predicate Takes(es: seq<ScheduleEntry>, natural: map<int, int>, bye: map<int, int>, week: int, to: int, way: Way) {
    var claims, src, dst := Claims(Ordered(bye.Keys), natural, bye), Sources(es, natural, bye), Destinations(es, natural, bye);
    match way
    case Claimed => week in claims && to == claims[week]
    case PairedWith(i) => i < |dst| && i < |src| && src[i] == week && to == dst[i]
    case LeftAlone(i) => |dst| <= i < |src| && src[i] == week && to == week
  }

  lemma WayOf(es: seq<ScheduleEntry>, natural: map<int, int>, bye: map<int, int>, week: int) returns (way: Way)
    requires IsNaturalByes(es, natural) && !Overruns(es, natural, bye) && week in Weeks(es)
    ensures week in Total(es, Remap(es, natural, bye))
    ensures Takes(es, natural, bye, week, Total(es, Remap(es, natural, bye))[week], way)
  {
    hide *;
    var claims, src, dst := Claims(Ordered(bye.Keys), natural, bye), Sources(es, natural, bye), Destinations(es, natural, bye);
    TotalAt(es, Remap(es, natural, bye), week);
    SourceMembers(es, natural, bye);
    RemapIsPaired(es, natural, bye);
    PairedMeaning(claims, src, dst, |dst|);
    if week in claims {
      way := Claimed;
      ClaimIsTaken(es, natural, bye, week);
    } else {
      var i :| 0 <= i < |src| && src[i] == week;
      if i < |dst| {
        way := PairedWith(i);
        PairingIsTaken(es, natural, bye, i);
      } else {
        way := LeftAlone(i);
        LeftAloneTakes(es, natural, bye, i);
        NotAmongTheFirst(src, |dst|, i);
      }
    }
  }

  lemma NotAmongTheFirst(s: seq<int>, k: nat, i: nat)
    requires Ascending(s) && k <= i < |s|
    ensures s[i] !in s[..k]
  {
  }

  lemma RemapIsPaired(es: seq<ScheduleEntry>, natural: map<int, int>, bye: map<int, int>)
    requires !Overruns(es, natural, bye)
    ensures |Destinations(es, natural, bye)| <= |Sources(es, natural, bye)|
    ensures var dst := Destinations(es, natural, bye);
            Remap(es, natural, bye) == Paired(Claims(Ordered(bye.Keys), natural, bye), Sources(es, natural, bye), dst, |dst|)
  {
    hide Claims, Ordered, Sources, Destinations, Paired;
  }

  lemma PairingIsTaken(es: seq<ScheduleEntry>, natural: map<int, int>, bye: map<int, int>, j: nat)
    requires j < |Sources(es, natural, bye)| && j < |Destinations(es, natural, bye)|
    ensures Takes(es, natural, bye, Sources(es, natural, bye)[j], Destinations(es, natural, bye)[j], PairedWith(j))
  {
  }

  lemma LeftAloneTakes(es: seq<ScheduleEntry>, natural: map<int, int>, bye: map<int, int>, i: nat)
    requires |Destinations(es, natural, bye)| <= i < |Sources(es, natural, bye)|
    ensures Takes(es, natural, bye, Sources(es, natural, bye)[i], Sources(es, natural, bye)[i], LeftAlone(i))
  {
  }

  /** Claims are one to one, and go only to requested weeks; pairings never do. */
  lemma ClaimsGoToRequests(es: seq<ScheduleEntry>, natural: map<int, int>, bye: map<int, int>)
    requires IsNaturalByes(es, natural)
    ensures var claims := Claims(Ordered(bye.Keys), natural, bye);
            && (forall s :: s in claims ==> s in Weeks(es) && claims[s] in Honoured(natural, bye))
            && (forall s, u :: s in claims && u in claims && claims[s] == claims[u] ==> s == u)
    ensures forall d :: d in Destinations(es, natural, bye) <==> d in Weeks(es) && d !in Honoured(natural, bye)
    ensures Ascending(Sources(es, natural, bye)) && Ascending(Destinations(es, natural, bye))
  {
    ClaimedWeeks(es, natural, bye);
    SourceMembers(es, natural, bye);
    hide Claims, Ordered, Weeks, Honoured, Sources, Destinations, IsNaturalByes, Ascending;
  }

  /** Two weeks meet exactly when one is left alone in the week the other goes to. */
  lemma WaysMeet(es: seq<ScheduleEntry>, natural: map<int, int>, bye: map<int, int>, v: int, w: int, to: int, p: Way, q: Way)
    requires IsNaturalByes(es, natural) && v != w
    requires Takes(es, natural, bye, v, to, p) && Takes(es, natural, bye, w, to, q)
    ensures p.LeftAlone? != q.LeftAlone?
  {
    hide IsNaturalByes, Takes;
    ClaimsGoToRequests(es, natural, bye);
    WayFacts(es, natural, bye, v, to, p);
    WayFacts(es, natural, bye, w, to, q);
    hide Claims, Ordered, Weeks, Honoured, Sources, Destinations;
  }

  /** What a way says of its week and of where it leads. */
  lemma WayFacts(es: seq<ScheduleEntry>, natural: map<int, int>, bye: map<int, int>, week: int, to: int, way: Way)
    requires IsNaturalByes(es, natural) && Takes(es, natural, bye, week, to, way)
    ensures var claims, src, dst := Claims(Ordered(bye.Keys), natural, bye), Sources(es, natural, bye), Destinations(es, natural, bye);
            match way
            case Claimed => week in claims && to == claims[week] && to in Honoured(natural, bye)
            case PairedWith(i) => i < |dst| && i < |src| && src[i] == week && to == dst[i] && to !in Honoured(natural, bye)
            case LeftAlone(i) => |dst| <= i < |src| && src[i] == week && to == week
  {
    ClaimsGoToRequests(es, natural, bye);
    var dst := Destinations(es, natural, bye);
    hide Claims, Ordered, Weeks, Honoured, Sources, Destinations, IsNaturalByes;
    assert way.PairedWith? ==> dst[way.i] in dst;
  }

  // ---- The last request of a team counts -------------------------------------------------------

  ghost function RequestsOf(bye: map<int, int>, team: int): set<int> {
    set w | w in bye && bye[w] == team
  }

  /** The claim of a team, if any week of the list is its request, is the last of them. */
  ghost predicate ClaimsLast(ws: seq<int>, claims: map<int, int>, bye: map<int, int>, team: int, source: int) {
    forall w :: w in ws && w in bye && bye[w] == team ==>
      source in claims && claims[source] in bye && bye[claims[source]] == team && w <= claims[source]
  }

  lemma OneMoreRequest(ws: seq<int>, w: int, claims: map<int, int>, natural: map<int, int>, bye: map<int, int>, team: int)
    requires team in natural && Injective(natural) && w in bye
    requires ClaimsLast(ws, claims, bye, team, natural[team]) && Ascending(ws + [w])
    ensures bye[w] in natural ==> ClaimsLast(ws + [w], claims[natural[bye[w]] := w], bye, team, natural[team])
    ensures bye[w] !in natural ==> ClaimsLast(ws + [w], claims, bye, team, natural[team])
  {
    forall v | v in ws
      ensures v < w
    {
      var i :| 0 <= i < |ws| && ws[i] == v;
      assert (ws + [w])[i] == v && (ws + [w])[|ws|] == w;
    }
  }

  lemma {:induction false} LastRequestIn(ws: seq<int>, natural: map<int, int>, bye: map<int, int>, team: int)
    requires Ascending(ws) && Elements(ws) <= bye.Keys && team in natural && Injective(natural)
    ensures ClaimsLast(ws, Claims(ws, natural, bye), bye, team, natural[team])
  {
    if ws != [] {
      var k := |ws| - 1;
      ClaimsStep(ws, k, natural, bye);
      hide Claims, Elements, HonouredIn, Injective, ClaimsLast;
      assert ws[..k + 1] == ws && ws == ws[..k] + [ws[k]];
      LastRequestIn(ws[..k], natural, bye, team);
      OneMoreRequest(ws[..k], ws[k], Claims(ws[..k], natural, bye), natural, bye, team);
    }
  }

  /** A team's natural week is claimed for the last week it asks for. */
  lemma LastRequestCounts(es: seq<ScheduleEntry>, natural: map<int, int>, bye: map<int, int>, team: int)
    requires IsNaturalByes(es, natural) && team in natural && RequestsOf(bye, team) != {}
    ensures natural[team] in Claims(Ordered(bye.Keys), natural, bye)
    ensures IsMaximum(RequestsOf(bye, team), Claims(Ordered(bye.Keys), natural, bye)[natural[team]])
  {
    hide *;
    NaturalIsOneToOne(es, natural);
    OrderedMembers(bye.Keys);
    OrderedElements(bye.Keys);
    LastRequestIn(Ordered(bye.Keys), natural, bye, team);
    LastIsMaximum(Ordered(bye.Keys), Claims(Ordered(bye.Keys), natural, bye), bye, team, natural[team]);
  }

  lemma OrderedElements(s: set<int>)
    ensures Ascending(Ordered(s)) && Elements(Ordered(s)) == s
  {
  }

  lemma LastIsMaximum(ws: seq<int>, claims: map<int, int>, bye: map<int, int>, team: int, source: int)
    requires ClaimsLast(ws, claims, bye, team, source) && RequestsOf(bye, team) != {}
    requires forall w :: w in bye ==> w in ws
    ensures source in claims && IsMaximum(RequestsOf(bye, team), claims[source])
  {
    var w := SomeElement(RequestsOf(bye, team));
    assert w in ws && bye[w] == team;
  }

  lemma NaturalIsOneToOne(es: seq<ScheduleEntry>, natural: map<int, int>)
    requires IsNaturalByes(es, natural)
    ensures Injective(natural)
  {
    hide Idle;
  }

  // ---- When the order matters -------------------------------------------------------------------

  /** Some iteration order leaves these natural byes. */
  ghost predicate LeftBySomeOrder(es: seq<ScheduleEntry>, natural: map<int, int>) {
    exists order, picks :: IsFirstPass(es, order, picks) && Picked(order, picks) == natural
  }

  /** Two iteration orders give different results for one and the same request map. */
  ghost predicate OrderMatters(es: seq<ScheduleEntry>, bye: map<int, int>) {
    exists n1, n2 :: LeftBySomeOrder(es, n1) && LeftBySomeOrder(es, n2) && Reorder(es, n1, bye) != Reorder(es, n2, bye)
  }

  lemma {:induction false} ClaimsAgree(ws: seq<int>, n1: map<int, int>, n2: map<int, int>, bye: map<int, int>)
    requires Elements(ws) <= bye.Keys
    requires forall w :: w in bye ==> (bye[w] in n1 <==> bye[w] in n2)
    requires forall w :: w in bye && bye[w] in n1 ==> n1[bye[w]] == n2[bye[w]]
    ensures Claims(ws, n1, bye) == Claims(ws, n2, bye)
  {
    if ws != [] {
      var init, w := ws[..|ws| - 1], ws[|ws| - 1];
      assert ws == init + [w];
      ElementsAppend(init, w);
      ClaimsAgree(init, n1, n2, bye);
      assert w in Elements(ws);
    }
  }

  lemma SameOutcome(es: seq<ScheduleEntry>, n1: map<int, int>, n2: map<int, int>, bye: map<int, int>)
    requires forall w :: w in bye ==> (bye[w] in n1 <==> bye[w] in n2)
    requires forall w :: w in bye && bye[w] in n1 ==> n1[bye[w]] == n2[bye[w]]
    ensures Reorder(es, n1, bye) == Reorder(es, n2, bye)
  {
    ClaimsAgree(Ordered(bye.Keys), n1, n2, bye);
    forall w
      ensures w in Honoured(n1, bye) <==> w in Honoured(n2, bye)
    {
    }
    SameElements(Honoured(n1, bye), Honoured(n2, bye));
    hide Claims, Ordered, Honoured, Weeks, Without, Moved;
    SameRemap(es, n1, n2, bye);
  }

  lemma SameRemap(es: seq<ScheduleEntry>, n1: map<int, int>, n2: map<int, int>, bye: map<int, int>)
    requires Claims(Ordered(bye.Keys), n1, bye) == Claims(Ordered(bye.Keys), n2, bye) && Honoured(n1, bye) == Honoured(n2, bye)
    ensures Reorder(es, n1, bye) == Reorder(es, n2, bye)
  {
    hide Claims, Ordered, Honoured, Weeks, Without, Moved;
    assert Sources(es, n1, bye) == Sources(es, n2, bye) && Destinations(es, n1, bye) == Destinations(es, n2, bye);
  }

  /** If two orders give a requesting team byes in different weeks, their results differ. */
  lemma DifferentOutcomes(es: seq<ScheduleEntry>, n1: map<int, int>, n2: map<int, int>, bye: map<int, int>, team: int)
    requires IsNaturalByes(es, n1) && IsNaturalByes(es, n2) && !Overruns(es, n1, bye) && !Overruns(es, n2, bye)
    requires team in n1 && team in n2 && n1[team] != n2[team] && RequestsOf(bye, team) != {}
    ensures Reorder(es, n1, bye) != Reorder(es, n2, bye)
  {
    hide *;
    LastRequestCounts(es, n1, bye, team);
    LastRequestCounts(es, n2, bye, team);
    var v, w := n1[team], n2[team];
    var to := Claims(Ordered(bye.Keys), n1, bye)[v];
    OneMaximum(RequestsOf(bye, team), to, Claims(Ordered(bye.Keys), n2, bye)[w]);
    ClaimIsTaken(es, n1, bye, v);
    ClaimIsTaken(es, n2, bye, w);
    ClaimsGoToRequests(es, n1, bye);
    ClaimsGoToRequests(es, n2, bye);
    ReorderExists(es, n1, bye);
    if Reorder(es, n1, bye) == Reorder(es, n2, bye) {
      var p := SameWay(es, n1, n2, bye, v, to);
      var q := SameWay(es, n2, n1, bye, w, to);
      WaysMeet(es, n2, bye, v, w, to, p, Claimed);
      WaysMeet(es, n1, bye, w, v, to, q, Claimed);
      LeftAloneStays(es, n2, bye, v, to, p);
      LeftAloneStays(es, n1, bye, w, to, q);
      assert false;
    }
  }

  lemma OneMaximum(s: set<int>, x: int, y: int)
    requires IsMaximum(s, x) && IsMaximum(s, y)
    ensures x == y
  {
  }

  /** If both orders have the same result, a week claimed under the one goes to the same week under the other. */
  lemma SameWay(es: seq<ScheduleEntry>, n1: map<int, int>, n2: map<int, int>, bye: map<int, int>, week: int, to: int) returns (way: Way)
    requires IsNaturalByes(es, n1) && IsNaturalByes(es, n2) && week in Weeks(es)
    requires Reorder(es, n1, bye) == Reorder(es, n2, bye) && Reorder(es, n1, bye) != None
    requires Takes(es, n1, bye, week, to, Claimed)
    ensures Takes(es, n2, bye, week, to, way)
  {
    hide *;
    WeekInUse(es, week);
    var i :| 0 <= i < |es| && es[i].week == week;
    var p := WayOfEntry(es, n1, bye, i);
    way := WayOfEntry(es, n2, bye, i);
    ClaimDecides(es, n1, bye, week, to, p, Reorder(es, n1, bye).value[i].week);
  }

  lemma WayOfEntry(es: seq<ScheduleEntry>, natural: map<int, int>, bye: map<int, int>, i: nat) returns (way: Way)
    requires IsNaturalByes(es, natural) && Reorder(es, natural, bye) != None && i < |es|
    ensures i < |Reorder(es, natural, bye).value|
    ensures Takes(es, natural, bye, es[i].week, Reorder(es, natural, bye).value[i].week, way)
  {
    hide *;
    ReorderExists(es, natural, bye);
    ReorderIs(es, natural, bye);
    WeekInUse(es, es[i].week);
    MovedAt(es, Remap(es, natural, bye), i);
    way := WayOf(es, natural, bye, es[i].week);
  }

  lemma MovedAt(es: seq<ScheduleEntry>, m: map<int, int>, i: nat)
    requires i < |es|
    ensures es[i].week in Total(es, m) && Moved(es, m)[i].week == Total(es, m)[es[i].week]
  {
    WeekInUse(es, es[i].week);
    TotalAt(es, m, es[i].week);
  }

  lemma ClaimIsTaken(es: seq<ScheduleEntry>, natural: map<int, int>, bye: map<int, int>, week: int)
    requires week in Claims(Ordered(bye.Keys), natural, bye)
    ensures Takes(es, natural, bye, week, Claims(Ordered(bye.Keys), natural, bye)[week], Claimed)
  {
  }

  lemma LeftAloneStays(es: seq<ScheduleEntry>, natural: map<int, int>, bye: map<int, int>, week: int, to: int, way: Way)
    requires Takes(es, natural, bye, week, to, way) && way.LeftAlone?
    ensures week == to
  {
  }

  /** A claimed week is not among the sources, so its claim decides. */
  lemma ClaimDecides(es: seq<ScheduleEntry>, natural: map<int, int>, bye: map<int, int>, week: int, to: int, way: Way, other: int)
    requires Takes(es, natural, bye, week, to, Claimed) && Takes(es, natural, bye, week, other, way)
    ensures other == to
  {
    SourceMembers(es, natural, bye);
    var src := Sources(es, natural, bye);
    hide Claims, Ordered, Sources, Destinations, Weeks, Honoured;
    assert week !in src;
  }

  /** Choose one of its idle weeks for every team, and the given one for the given team. */
  ghost function ByesWith(es: seq<ScheduleEntry>, team: int, week: int): map<int, int> {
    map t | t in AllTeams(es) && HasBye(es, t) :: if t == team then week else ABye(es, t)
  }

  ghost function ABye(es: seq<ScheduleEntry>, team: int): (week: int)
    requires HasBye(es, team)
    ensures Idle(es, week, team)
  {
    var w :| Idle(es, w, team);
    w
  }

  lemma ByesWithAt(es: seq<ScheduleEntry>, team: int, week: int, t: int)
    requires Idle(es, week, team)
    ensures t in ByesWith(es, team, week) <==> HasBye(es, t)
    ensures t in ByesWith(es, team, week) ==> Idle(es, ByesWith(es, team, week)[t], t)
    ensures team in ByesWith(es, team, week) && ByesWith(es, team, week)[team] == week
  {
    assert team in AllTeams(es) && HasBye(es, team);
    if HasBye(es, t) {
      assert Idle(es, ABye(es, t), t);
    }
    hide AllTeams, PlayingTeams, Weeks;
  }

  lemma ByesWithAreNatural(es: seq<ScheduleEntry>, team: int, week: int)
    requires OneIdleTeam(es) && Idle(es, week, team)
    ensures IsNaturalByes(es, ByesWith(es, team, week))
  {
    hide Idle, ByesWith;
    var natural := ByesWith(es, team, week);
    forall t | t in natural
      ensures Idle(es, natural[t], t)
    {
      ByesWithAt(es, team, week, t);
    }
    forall w, t | Idle(es, w, t)
      ensures exists u :: u in natural && Idle(es, w, u)
    {
      ByesWithAt(es, team, week, t);
      assert t in natural;
    }
  }

  /**
   Main result: with one idle team a week, the iteration order decides the result of a request map
   exactly when the program does not panic on it and it names a team that is idle twice.
   */
  lemma OrderMattersExactlyWhen(es: seq<ScheduleEntry>, bye: map<int, int>)
    requires OneIdleTeam(es)
    ensures OrderMatters(es, bye) <==> !TooFewWeeks(es, bye) && exists w :: w in bye && IdleTwice(es, bye[w])
  {
    if OrderMatters(es, bye) {
      var n1, n2 :| LeftBySomeOrder(es, n1) && LeftBySomeOrder(es, n2) && Reorder(es, n1, bye) != Reorder(es, n2, bye);
      NaturalByesExactlyWhen(es, n1);
      NaturalByesExactlyWhen(es, n2);
      hide *;
      PanicsExactlyWhen(es, n1, bye);
      PanicsExactlyWhen(es, n2, bye);
      var w := DifferentByes(es, n1, n2, bye);
    }
    if !TooFewWeeks(es, bye) && exists w :: w in bye && IdleTwice(es, bye[w]) {
      var w :| w in bye && IdleTwice(es, bye[w]);
      IdleTwiceGivesTwo(es, bye, w);
    }
  }

  lemma DifferentByes(es: seq<ScheduleEntry>, n1: map<int, int>, n2: map<int, int>, bye: map<int, int>) returns (w: int)
    requires OneIdleTeam(es) && IsNaturalByes(es, n1) && IsNaturalByes(es, n2) && Reorder(es, n1, bye) != Reorder(es, n2, bye)
    ensures w in bye && IdleTwice(es, bye[w])
  {
    hide Idle, Reorder, IsNaturalByes, OneIdleTeam, HasBye;
    forall w | w in bye
      ensures bye[w] in n1 <==> bye[w] in n2
    {
      NaturalTeamsAre(es, n1, bye[w]);
      NaturalTeamsAre(es, n2, bye[w]);
    }
    if forall w :: w in bye && bye[w] in n1 ==> n1[bye[w]] == n2[bye[w]] {
      SameOutcome(es, n1, n2, bye);
      assert false;
    }
    w :| w in bye && bye[w] in n1 && n1[bye[w]] != n2[bye[w]];
    NaturalIsIdle(es, n1, bye[w]);
    NaturalIsIdle(es, n2, bye[w]);
  }

  lemma IdleTwiceGivesTwo(es: seq<ScheduleEntry>, bye: map<int, int>, week: int)
    requires OneIdleTeam(es) && !TooFewWeeks(es, bye) && week in bye && IdleTwice(es, bye[week])
    ensures OrderMatters(es, bye)
  {
    var team := bye[week];
    assert week in RequestsOf(bye, team);
    var v, w :| v != w && Idle(es, v, team) && Idle(es, w, team);
    hide *;
    var n1, n2 := ByesWith(es, team, v), ByesWith(es, team, w);
    ByesWithAreNatural(es, team, v);
    ByesWithAreNatural(es, team, w);
    ByesWithAt(es, team, v, team);
    ByesWithAt(es, team, w, team);
    PanicsExactlyWhen(es, n1, bye);
    PanicsExactlyWhen(es, n2, bye);
    ReorderExists(es, n1, bye);
    ReorderExists(es, n2, bye);
    DifferentOutcomes(es, n1, n2, bye, team);
    TwoOrders(es, bye, n1, n2);
  }

  lemma TwoOrders(es: seq<ScheduleEntry>, bye: map<int, int>, n1: map<int, int>, n2: map<int, int>)
    requires IsNaturalByes(es, n1) && IsNaturalByes(es, n2) && Reorder(es, n1, bye) != Reorder(es, n2, bye)
    ensures OrderMatters(es, bye)
  {
    NaturalByesExactlyWhen(es, n1);
    NaturalByesExactlyWhen(es, n2);
    hide IsNaturalByes, IsFirstPass, Picked, Reorder;
  }
}
