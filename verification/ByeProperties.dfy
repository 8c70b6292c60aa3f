/**
 What the week permutation guarantees: for every order in which Go may iterate its maps, the
 weeks are permuted as wholes, honoured teams sit out the week they asked for, and everything
 not claimed keeps its order. And exactly when the permutation cannot be built.
 */
module ByeProperties {
  import opened Prelude
  import opened Schedule
  import opened Ordering
  import opened ByeRequests

  ghost function HonouredTeams(ws: set<int>, bye: map<int, int>): set<int>
    requires ws <= bye.Keys
  {
    set w | w in ws :: bye[w]
  }

  /** The requests that can be honoured name different teams, and weeks the schedule has. */
  ghost predicate Sensible(es: seq<ScheduleEntry>, natural: map<int, int>, bye: map<int, int>) {
    && (forall v, w :: v in Honoured(natural, bye) && w in Honoured(natural, bye) && v != w ==> bye[v] != bye[w])
    && Honoured(natural, bye) <= Weeks(es)
  }

  // ---- Claims ------------------------------------------------------------------------

  /** Each claim takes a team's natural week to a week that team asked for. */
  ghost predicate ClaimsServe(claims: map<int, int>, natural: map<int, int>, bye: map<int, int>, honoured: set<int>) {
    && (forall w :: w in honoured ==> w in bye && bye[w] in natural && natural[bye[w]] in claims)
    && (forall s :: s in claims ==> claims[s] in honoured && natural[bye[claims[s]]] == s)
  }

  ghost predicate Injective(natural: map<int, int>) {
    forall t, u :: t in natural && u in natural && t != u ==> natural[t] != natural[u]
  }

  lemma {:induction false} ClaimsMeaning(ws: seq<int>, natural: map<int, int>, bye: map<int, int>)
    requires Ascending(ws) && Elements(ws) <= bye.Keys
    ensures ClaimsServe(Claims(ws, natural, bye), natural, bye, HonouredIn(ws, natural, bye))
  {
    if ws != [] {
      var k := |ws| - 1;
      ClaimsStep(ws, k, natural, bye);
      ClaimsMeaning(ws[..k], natural, bye);
      assert ws[..k + 1] == ws;
    }
  }

  /** One source week is claimed per honoured team. */
  lemma {:induction false} ClaimsCount(ws: seq<int>, natural: map<int, int>, bye: map<int, int>)
    requires Ascending(ws) && Elements(ws) <= bye.Keys && Injective(natural)
    ensures |Claims(ws, natural, bye).Keys| == |HonouredTeams(HonouredIn(ws, natural, bye), bye)|
  {
    if ws == [] {
      assert HonouredTeams(HonouredIn(ws, natural, bye), bye) == {};
    } else {
      var k := |ws| - 1;
      var w := ws[k];
      ClaimsStep(ws, k, natural, bye);
      assert ws[..k + 1] == ws;
      ClaimsCount(ws[..k], natural, bye);
      ClaimsMeaning(ws[..k], natural, bye);
      if bye[w] in natural {
        hide Claims, HonouredIn;
        OneMoreClaim(Claims(ws[..k], natural, bye), natural, bye, HonouredIn(ws[..k], natural, bye), w);
      }
    }
  }

  lemma TeamsAdd(ws: set<int>, w: int, bye: map<int, int>)
    requires ws <= bye.Keys && w in bye
    ensures HonouredTeams(ws + {w}, bye) == HonouredTeams(ws, bye) + {bye[w]}
    ensures forall v :: v in ws ==> bye[v] in HonouredTeams(ws, bye)
    ensures bye[w] in HonouredTeams(ws, bye) ==> exists v :: v in ws && bye[v] == bye[w]
  {
  }

  /** A claim is new exactly when its team is. */
  lemma ClaimedWithTeam(prior: map<int, int>, natural: map<int, int>, bye: map<int, int>, honoured: set<int>, w: int)
    requires Injective(natural) && ClaimsServe(prior, natural, bye, honoured)
    requires w in bye && bye[w] in natural && honoured <= bye.Keys
    ensures bye[w] in HonouredTeams(honoured, bye) <==> natural[bye[w]] in prior
  {
    var t, teams, s := bye[w], HonouredTeams(honoured, bye), natural[bye[w]];
    TeamsAdd(honoured, w, bye);
    hide HonouredTeams;
    if s in prior {
      var v := prior[s];
      assert v in honoured;
      assert natural[bye[v]] == s;
      assert bye[v] == t;
    }
    if t in teams {
      var v :| v in honoured && bye[v] == t;
      assert natural[bye[v]] in prior;
    }
  }

  lemma OneMoreClaim(prior: map<int, int>, natural: map<int, int>, bye: map<int, int>, honoured: set<int>, w: int)
    requires Injective(natural) && ClaimsServe(prior, natural, bye, honoured)
    requires w in bye && bye[w] in natural && honoured <= bye.Keys
    requires |prior.Keys| == |HonouredTeams(honoured, bye)|
    ensures |prior[natural[bye[w]] := w].Keys| == |HonouredTeams(honoured + {w}, bye)|
  {
    hide *;
    ClaimedWithTeam(prior, natural, bye, honoured, w);
    TeamsAdd(honoured, w, bye);
    SizesGrowTogether(prior.Keys, natural[bye[w]], HonouredTeams(honoured, bye), bye[w]);
    KeysAfter(prior, natural[bye[w]], w);
  }

  lemma KeysAfter(m: map<int, int>, k: int, v: int)
    ensures m[k := v].Keys == m.Keys + {k}
  {
  }

  lemma SizesGrowTogether(a: set<int>, x: int, b: set<int>, y: int)
    requires |a| == |b| && (x in a <==> y in b)
    ensures |a + {x}| == |b + {y}|
  {
    if x in a {
      assert a + {x} == a && b + {y} == b;
    }
  }

  // ---- When the pairing overruns -------------------------------------------------------

  lemma WithoutCount(s: set<int>, excluded: set<int>)
    ensures |Without(Ordered(s), excluded)| == |s| - |excluded * s|
  {
    WithoutIsAscending(Ordered(s), excluded);
    ElementsCount(Without(Ordered(s), excluded));
    hide Ordered, Without;
    assert s - excluded == s - excluded * s;
  }

  lemma ClaimedWeeks(es: seq<ScheduleEntry>, natural: map<int, int>, bye: map<int, int>)
    requires IsNaturalByes(es, natural)
    ensures var claims := Claims(Ordered(bye.Keys), natural, bye);
            && claims.Keys <= Weeks(es)
            && ClaimsServe(claims, natural, bye, Honoured(natural, bye))
            && |claims.Keys| == |HonouredTeams(Honoured(natural, bye), bye)|
  {
    hide Weeks, Idle;
    var ws := Ordered(bye.Keys);
    ClaimsMeaning(ws, natural, bye);
    assert HonouredIn(ws, natural, bye) == Honoured(natural, bye);
    assert Injective(natural);
    ClaimsCount(ws, natural, bye);
    var claims := Claims(ws, natural, bye);
    forall s | s in claims
      ensures s in Weeks(es)
    {
      IdleWeekExists(es, s, bye[claims[s]]);
    }
  }

  lemma RemainingCounts(es: seq<ScheduleEntry>, natural: map<int, int>, bye: map<int, int>)
    requires IsNaturalByes(es, natural)
    ensures |Sources(es, natural, bye)| == |Weeks(es)| - |HonouredTeams(Honoured(natural, bye), bye)|
    ensures |Destinations(es, natural, bye)| == |Weeks(es)| - |Honoured(natural, bye) * Weeks(es)|
  {
    hide *;
    ClaimedWeeks(es, natural, bye);
    CountsOfRemaining(es, natural, bye);
    InsideAll(Claims(Ordered(bye.Keys), natural, bye).Keys, Weeks(es));
  }

  lemma InsideAll(a: set<int>, b: set<int>)
    requires a <= b
    ensures a * b == a
  {
  }

  lemma CountsOfRemaining(es: seq<ScheduleEntry>, natural: map<int, int>, bye: map<int, int>)
    ensures |Sources(es, natural, bye)| == |Weeks(es)| - |Claims(Ordered(bye.Keys), natural, bye).Keys * Weeks(es)|
    ensures |Destinations(es, natural, bye)| == |Weeks(es)| - |Honoured(natural, bye) * Weeks(es)|
  {
    hide Weeks, Honoured, Claims, Ordered, Without;
    WithoutCount(Weeks(es), Claims(Ordered(bye.Keys), natural, bye).Keys);
    WithoutCount(Weeks(es), Honoured(natural, bye));
  }

  /**
   The program indexes past the remaining source weeks exactly when fewer of the requested
   weeks exist in the schedule than there are teams with a bye to honour.
   */
  lemma OverrunsExactlyWhen(es: seq<ScheduleEntry>, natural: map<int, int>, bye: map<int, int>)
    requires IsNaturalByes(es, natural)
    ensures Reorder(es, natural, bye) == None <==>
            |Honoured(natural, bye) * Weeks(es)| < |HonouredTeams(Honoured(natural, bye), bye)|
  {
    hide *;
    RemainingCounts(es, natural, bye);
    ReorderExists(es, natural, bye);
    OverrunsIs(es, natural, bye);
  }

  lemma OverrunsIs(es: seq<ScheduleEntry>, natural: map<int, int>, bye: map<int, int>)
    ensures Overruns(es, natural, bye) <==> |Destinations(es, natural, bye)| > |Sources(es, natural, bye)|
  {
    hide Destinations, Sources;
  }

  lemma ReorderExists(es: seq<ScheduleEntry>, natural: map<int, int>, bye: map<int, int>)
    ensures Reorder(es, natural, bye) != None <==> !Overruns(es, natural, bye)
  {
    hide Overruns, Remap, Moved;
  }

  lemma {:induction false} TeamsCount(ws: set<int>, bye: map<int, int>)
    requires ws <= bye.Keys
    requires forall v, w :: v in ws && w in ws && v != w ==> bye[v] != bye[w]
    ensures |HonouredTeams(ws, bye)| == |ws|
    decreases |ws|
  {
    if ws == {} {
      assert HonouredTeams(ws, bye) == {};
    } else {
      var w := SomeElement(ws);
      TeamsCount(ws - {w}, bye);
      assert HonouredTeams(ws, bye) == HonouredTeams(ws - {w}, bye) + {bye[w]};
    }
  }

  // ---- The permutation -------------------------------------------------------------------

  ghost predicate MapsInto(m: map<int, int>, weeks: set<int>) {
    forall v :: v in m ==> m[v] in weeks
  }

  ghost predicate Onto(m: map<int, int>, weeks: set<int>) {
    forall w :: w in weeks ==> exists v :: v in m && m[v] == w
  }

  /** A bijection from the weeks to the weeks. */
  ghost predicate Permutes(m: map<int, int>, weeks: set<int>) {
    m.Keys == weeks && MapsInto(m, weeks) && Injective(m) && Onto(m, weeks)
  }

  ghost predicate Grants(m: map<int, int>, natural: map<int, int>, bye: map<int, int>, honoured: set<int>) {
    forall w :: w in honoured ==>
      w in bye && bye[w] in natural && natural[bye[w]] in m && m[natural[bye[w]]] == w
  }

  /** Weeks that go to destinations nobody asked for keep their relative order. */
  ghost predicate KeepsOrder(m: map<int, int>, honoured: set<int>) {
    forall v, w :: v in m && w in m && v < w && m[v] !in honoured && m[w] !in honoured ==> m[v] < m[w]
  }

  lemma {:induction false} PairedMeaning(claims: map<int, int>, src: seq<int>, dst: seq<int>, k: nat)
    requires k <= |src| && k <= |dst| && Ascending(src)
    requires forall s :: s in src ==> s !in claims
    ensures forall s :: s in claims ==> s in Paired(claims, src, dst, k) && Paired(claims, src, dst, k)[s] == claims[s]
    ensures forall i :: 0 <= i < k ==> src[i] in Paired(claims, src, dst, k) && Paired(claims, src, dst, k)[src[i]] == dst[i]
    ensures forall s :: s in Paired(claims, src, dst, k) ==> s in claims || s in src[..k]
  {
    if k > 0 {
      PairedMeaning(claims, src, dst, k - 1);
      assert src[k - 1] in src;
    }
  }

  /** The permutation as assembled: the claims, and the remaining weeks in order. */
  ghost predicate Assembled(m: map<int, int>, claims: map<int, int>, src: seq<int>, dst: seq<int>) {
    && |src| == |dst| && Ascending(src) && Ascending(dst)
    && (forall s :: s in m <==> s in claims || s in src)
    && (forall s :: s in claims ==> s !in src && m[s] == claims[s])
    && (forall i :: 0 <= i < |src| ==> m[src[i]] == dst[i])
  }

  lemma RemainingMembers(weeks: set<int>, taken: set<int>)
    ensures Ascending(Without(Ordered(weeks), taken))
    ensures forall s :: s in Without(Ordered(weeks), taken) <==> s in weeks && s !in taken
  {
    var r := Without(Ordered(weeks), taken);
    WithoutIsAscending(Ordered(weeks), taken);
    assert forall s :: s in r <==> s in Elements(r);
  }

  lemma RemapAssembled(es: seq<ScheduleEntry>, natural: map<int, int>, bye: map<int, int>)
    requires IsNaturalByes(es, natural) && Sensible(es, natural, bye)
    ensures !Overruns(es, natural, bye)
    ensures Assembled(Remap(es, natural, bye), Claims(Ordered(bye.Keys), natural, bye),
                      Sources(es, natural, bye), Destinations(es, natural, bye))
  {
    hide *;
    var claims := Claims(Ordered(bye.Keys), natural, bye);
    var src, dst := Sources(es, natural, bye), Destinations(es, natural, bye);
    EqualRemainders(es, natural, bye);
    SourceMembers(es, natural, bye);
    RemapIs(es, natural, bye);
    PairedIsAssembled(claims, src, dst);
  }

  lemma EqualRemainders(es: seq<ScheduleEntry>, natural: map<int, int>, bye: map<int, int>)
    requires IsNaturalByes(es, natural) && Sensible(es, natural, bye)
    ensures |Sources(es, natural, bye)| == |Destinations(es, natural, bye)|
  {
    hide *;
    RemainingCounts(es, natural, bye);
    HonouredAreRequests(natural, bye);
    SensibleMeans(es, natural, bye);
    TeamsCount(Honoured(natural, bye), bye);
    InsideAll(Honoured(natural, bye), Weeks(es));
  }

  lemma SensibleMeans(es: seq<ScheduleEntry>, natural: map<int, int>, bye: map<int, int>)
    requires Sensible(es, natural, bye)
    ensures Honoured(natural, bye) <= bye.Keys && Honoured(natural, bye) <= Weeks(es)
    ensures forall v, w :: v in Honoured(natural, bye) && w in Honoured(natural, bye) && v != w ==> bye[v] != bye[w]
  {
    HonouredAreRequests(natural, bye);
    hide Honoured, Weeks;
  }

  lemma HonouredAreRequests(natural: map<int, int>, bye: map<int, int>)
    ensures Honoured(natural, bye) <= bye.Keys
  {
  }

  lemma SourceMembers(es: seq<ScheduleEntry>, natural: map<int, int>, bye: map<int, int>)
    ensures Ascending(Sources(es, natural, bye)) && Ascending(Destinations(es, natural, bye))
    ensures forall s :: s in Sources(es, natural, bye) <==>
              s in Weeks(es) && s !in Claims(Ordered(bye.Keys), natural, bye)
    ensures forall s :: s in Destinations(es, natural, bye) <==> s in Weeks(es) && s !in Honoured(natural, bye)
  {
    RemainingMembers(Weeks(es), Claims(Ordered(bye.Keys), natural, bye).Keys);
    RemainingMembers(Weeks(es), Honoured(natural, bye));
    hide Weeks, Honoured, Claims, Ordered, Without, Ascending;
  }

  lemma RemapIs(es: seq<ScheduleEntry>, natural: map<int, int>, bye: map<int, int>)
    requires |Sources(es, natural, bye)| == |Destinations(es, natural, bye)|
    ensures !Overruns(es, natural, bye)
    ensures var src, dst := Sources(es, natural, bye), Destinations(es, natural, bye);
            Remap(es, natural, bye) == Paired(Claims(Ordered(bye.Keys), natural, bye), src, dst, |dst|)
  {
  }

  lemma PairedIsAssembled(claims: map<int, int>, src: seq<int>, dst: seq<int>)
    requires |src| == |dst| && Ascending(src) && Ascending(dst)
    requires forall s :: s in src ==> s !in claims
    ensures Assembled(Paired(claims, src, dst, |dst|), claims, src, dst)
  {
    PairedMeaning(claims, src, dst, |dst|);
    assert src[..|dst|] == src;
  }

  /**
   Main result: for sensible requests the program never overruns, and what it builds is a
   bijection on the weeks of the schedule that sends each honoured team's natural week to the
   week requested and keeps all the other weeks in their order.
   */
  lemma RemapPermutesWeeks(es: seq<ScheduleEntry>, natural: map<int, int>, bye: map<int, int>)
    requires IsNaturalByes(es, natural) && Sensible(es, natural, bye)
    ensures !Overruns(es, natural, bye)
    ensures Permutes(Remap(es, natural, bye), Weeks(es))
    ensures Grants(Remap(es, natural, bye), natural, bye, Honoured(natural, bye))
    ensures KeepsOrder(Remap(es, natural, bye), Honoured(natural, bye))
  {
    RemapAssembled(es, natural, bye);
    ClaimedWeeks(es, natural, bye);
    var claims := Claims(Ordered(bye.Keys), natural, bye);
    var m, src, dst := Remap(es, natural, bye), Sources(es, natural, bye), Destinations(es, natural, bye);
    var honoured, weeks := Honoured(natural, bye), Weeks(es);
    RemainingMembers(weeks, claims.Keys);
    RemainingMembers(weeks, honoured);
    assert Injective(natural);
    assert Parts(m, claims, src, dst, natural, bye, honoured, weeks) by {
      hide IsNaturalByes, Assembled, ClaimsServe, Elements, Ordered, Claims, Without, Remap, Weeks, Honoured, HonouredTeams;
    }
    hide *;
    AssembledMapsInto(m, claims, src, dst, natural, bye, honoured, weeks);
    AssembledInjective(m, claims, src, dst, natural, bye, honoured, weeks);
    AssembledOnto(m, claims, src, dst, natural, bye, honoured, weeks);
    AssembledKeepsOrder(m, claims, src, dst, natural, bye, honoured, weeks);
    AssembledGrants(m, claims, src, dst, natural, bye, honoured, weeks);
    PermutesIs(m, weeks);
  }

  lemma PermutesIs(m: map<int, int>, weeks: set<int>)
    requires m.Keys == weeks && MapsInto(m, weeks) && Injective(m) && Onto(m, weeks)
    ensures Permutes(m, weeks)
  {
  }

  /** The facts about the parts that the five properties below are drawn from. */
  ghost predicate Parts(m: map<int, int>, claims: map<int, int>, src: seq<int>, dst: seq<int>,
                        natural: map<int, int>, bye: map<int, int>, honoured: set<int>, weeks: set<int>) {
    && Assembled(m, claims, src, dst) && ClaimsServe(claims, natural, bye, honoured)
    && Injective(natural) && claims.Keys <= weeks && honoured <= weeks
    && (forall s :: s in src <==> s in weeks && s !in claims)
    && (forall d :: d in dst <==> d in weeks && d !in honoured)
    && (forall v, w :: v in honoured && w in honoured && v != w ==> bye[v] != bye[w])
  }

  lemma AssembledGrants(m: map<int, int>, claims: map<int, int>, src: seq<int>, dst: seq<int>,
                        natural: map<int, int>, bye: map<int, int>, honoured: set<int>, weeks: set<int>)
    requires Parts(m, claims, src, dst, natural, bye, honoured, weeks)
    ensures Grants(m, natural, bye, honoured)
  {
  }

  lemma AssembledMapsInto(m: map<int, int>, claims: map<int, int>, src: seq<int>, dst: seq<int>,
                          natural: map<int, int>, bye: map<int, int>, honoured: set<int>, weeks: set<int>)
    requires Parts(m, claims, src, dst, natural, bye, honoured, weeks)
    ensures m.Keys == weeks && MapsInto(m, weeks)
  {
    assert forall v :: v in m <==> v in weeks;
    forall v | v in m
      ensures m[v] in weeks
    {
      if v in src {
        var i :| 0 <= i < |src| && src[i] == v;
        assert dst[i] in dst;
      }
    }
  }

  lemma AssembledInjective(m: map<int, int>, claims: map<int, int>, src: seq<int>, dst: seq<int>,
                           natural: map<int, int>, bye: map<int, int>, honoured: set<int>, weeks: set<int>)
    requires Parts(m, claims, src, dst, natural, bye, honoured, weeks)
    ensures Injective(m)
  {
    forall v, w | v in m && w in m && v != w
      ensures m[v] != m[w]
    {
      if v in src && w in src {
        PairedApart(m, src, dst, v, w);
      } else if v in src {
        PairedToFree(m, claims, src, dst, natural, bye, honoured, weeks, v);
      } else if w in src {
        PairedToFree(m, claims, src, dst, natural, bye, honoured, weeks, w);
      }
    }
  }

  lemma PairedApart(m: map<int, int>, src: seq<int>, dst: seq<int>, v: int, w: int)
    requires |src| == |dst| && Ascending(src) && Ascending(dst) && v in m && w in m
    requires v in src && w in src && v != w && forall i :: 0 <= i < |src| ==> src[i] in m && m[src[i]] == dst[i]
    ensures m[v] != m[w]
  {
    var i :| 0 <= i < |src| && src[i] == v;
    var j :| 0 <= j < |src| && src[j] == w;
    assert i != j;
  }

  lemma PairedToFree(m: map<int, int>, claims: map<int, int>, src: seq<int>, dst: seq<int>,
                     natural: map<int, int>, bye: map<int, int>, honoured: set<int>, weeks: set<int>, v: int)
    requires Parts(m, claims, src, dst, natural, bye, honoured, weeks) && v in src && v in m
    ensures m[v] !in honoured
  {
    var i :| 0 <= i < |src| && src[i] == v;
    assert dst[i] in dst;
  }

  lemma AssembledOnto(m: map<int, int>, claims: map<int, int>, src: seq<int>, dst: seq<int>,
                      natural: map<int, int>, bye: map<int, int>, honoured: set<int>, weeks: set<int>)
    requires Parts(m, claims, src, dst, natural, bye, honoured, weeks)
    ensures Onto(m, weeks)
  {
    AssembledGrants(m, claims, src, dst, natural, bye, honoured, weeks);
    forall w | w in weeks
      ensures exists v :: v in m && m[v] == w
    {
      if w in honoured {
        assert m[natural[bye[w]]] == w;
      } else {
        assert w in dst;
        var i :| 0 <= i < |dst| && dst[i] == w;
        assert src[i] in src && m[src[i]] == w;
      }
    }
  }

  lemma AssembledKeepsOrder(m: map<int, int>, claims: map<int, int>, src: seq<int>, dst: seq<int>,
                            natural: map<int, int>, bye: map<int, int>, honoured: set<int>, weeks: set<int>)
    requires Parts(m, claims, src, dst, natural, bye, honoured, weeks)
    ensures KeepsOrder(m, honoured)
  {
    assert forall s :: s in claims ==> m[s] in honoured;
    forall i | 0 <= i < |src|
      ensures src[i] in m && m[src[i]] == dst[i]
    {
      assert src[i] in src;
    }
    InOrderOutside(m, claims.Keys, src, dst, honoured);
  }

  lemma InOrderOutside(m: map<int, int>, claimed: set<int>, src: seq<int>, dst: seq<int>, honoured: set<int>)
    requires |src| == |dst| && Ascending(src) && Ascending(dst)
    requires forall s :: s in m ==> s in src || s in claimed
    requires forall s :: s in claimed ==> s in m && m[s] in honoured
    requires forall i :: 0 <= i < |src| ==> src[i] in m && m[src[i]] == dst[i]
    ensures KeepsOrder(m, honoured)
  {
    forall v, w | v in m && w in m && v < w && m[v] !in honoured && m[w] !in honoured
      ensures m[v] < m[w]
    {
      var i :| 0 <= i < |src| && src[i] == v;
      var j :| 0 <= j < |src| && src[j] == w;
      assert i < j;
    }
  }

  // ---- What this means for the schedule ----------------------------------------------------

  /** A one-to-one renumbering moves each week's fixtures together: every count carries over. */
  lemma WeeksMoveTogether(es: seq<ScheduleEntry>, m: map<int, int>, week: int)
    requires m.Keys == Weeks(es) && week in m && Injective(m)
    ensures forall team :: Plays(Moved(es, m), m[week], team) == Plays(es, week, team)
    ensures forall host, guest :: Fixtures(Moved(es, m), host, guest, m[week]) == Fixtures(es, host, guest, week)
  {
    assert forall i :: 0 <= i < |es| ==> es[i].week in Weeks(es);
    forall team
      ensures Plays(Moved(es, m), m[week], team) == Plays(es, week, team)
    {
      CountTranslate(Moved(es, m), PlayingIn(m[week], team), es, PlayingIn(week, team));
    }
    forall host, guest
      ensures Fixtures(Moved(es, m), host, guest, m[week]) == Fixtures(es, host, guest, week)
    {
      CountTranslate(Moved(es, m), FixtureIn(host, guest, m[week]), es, FixtureIn(host, guest, week));
    }
  }

  /** Renumbering weeks never changes who meets whom, or how often who is at home. */
  lemma PairingsUnaffected(es: seq<ScheduleEntry>, m: map<int, int>)
    ensures forall a, b :: Meetings(Moved(es, m), a, b) == Meetings(es, a, b)
    ensures forall host, guest :: Hostings(Moved(es, m), host, guest) == Hostings(es, host, guest)
  {
    forall a, b
      ensures Meetings(Moved(es, m), a, b) == Meetings(es, a, b)
    {
      CountTranslate(Moved(es, m), MeetingOf(a, b), es, MeetingOf(a, b));
    }
    forall host, guest
      ensures Hostings(Moved(es, m), host, guest) == Hostings(es, host, guest)
    {
      CountTranslate(Moved(es, m), HostingOf(host, guest), es, HostingOf(host, guest));
    }
  }

  lemma WeekInUse(es: seq<ScheduleEntry>, week: int)
    ensures week in Weeks(es) <==> exists i :: 0 <= i < |es| && es[i].week == week
  {
  }

  lemma UnusedWeek(es: seq<ScheduleEntry>, week: int, team: int)
    requires week !in Weeks(es)
    ensures Plays(es, week, team) == 0
  {
    assert forall i :: 0 <= i < |es| ==> es[i].week in Weeks(es);
    CountZero(es, PlayingIn(week, team));
  }

  lemma MovedKeepsWeeks(es: seq<ScheduleEntry>, m: map<int, int>)
    requires Permutes(m, Weeks(es))
    ensures Weeks(Moved(es, m)) == Weeks(es)
  {
    hide Weeks, Moved, MapsInto, Onto, Injective;
    forall w
      ensures w in Weeks(Moved(es, m)) <==> w in Weeks(es)
    {
      if w in Weeks(es) {
        MovedReaches(es, m, w);
      }
      if w in Weeks(Moved(es, m)) {
        MovedStays(es, m, w);
      }
    }
    hide *;
    SameElements(Weeks(Moved(es, m)), Weeks(es));
  }

  lemma MovedStays(es: seq<ScheduleEntry>, m: map<int, int>, week: int)
    requires m.Keys == Weeks(es) && MapsInto(m, Weeks(es)) && week in Weeks(Moved(es, m))
    ensures week in Weeks(es)
  {
    WeekInUse(Moved(es, m), week);
    var i :| 0 <= i < |es| && Moved(es, m)[i].week == week;
    WeekInUse(es, es[i].week);
    hide Weeks;
    assert m[es[i].week] in Weeks(es);
  }

  lemma MovedReaches(es: seq<ScheduleEntry>, m: map<int, int>, week: int)
    requires m.Keys == Weeks(es) && Onto(m, Weeks(es)) && week in Weeks(es)
    ensures week in Weeks(Moved(es, m))
  {
    hide Weeks;
    var v :| v in m && m[v] == week;
    hide Onto;
    WeekInUse(es, v);
    var i :| 0 <= i < |es| && es[i].week == v;
    assert Moved(es, m)[i].week == week;
    WeekInUse(Moved(es, m), week);
  }

  /** Main result: every honoured team is idle in the week it asked for. */
  lemma RequestsAreGranted(es: seq<ScheduleEntry>, natural: map<int, int>, bye: map<int, int>, week: int)
    requires IsNaturalByes(es, natural) && Sensible(es, natural, bye) && week in Honoured(natural, bye)
    ensures Reorder(es, natural, bye).Some?
    ensures Plays(Reorder(es, natural, bye).value, week, bye[week]) == 0
  {
    hide *;
    RemapPermutesWeeks(es, natural, bye);
    ReorderIs(es, natural, bye);
    IdleStaysIdle(es, natural, bye, Remap(es, natural, bye), week);
  }

  lemma ReorderIs(es: seq<ScheduleEntry>, natural: map<int, int>, bye: map<int, int>)
    requires !Overruns(es, natural, bye)
    ensures Reorder(es, natural, bye) == Some(Moved(es, Remap(es, natural, bye)))
  {
  }

  lemma IdleStaysIdle(es: seq<ScheduleEntry>, natural: map<int, int>, bye: map<int, int>, m: map<int, int>, week: int)
    requires IsNaturalByes(es, natural) && Permutes(m, Weeks(es))
    requires week in Honoured(natural, bye) && Grants(m, natural, bye, Honoured(natural, bye))
    ensures Plays(Moved(es, m), week, bye[week]) == 0
  {
    var team := bye[week];
    assert Idle(es, natural[team], team);
    NotPlayingIsNoMatch(es, natural[team], team);
    hide IsNaturalByes, Weeks, AllTeams, PlayingTeams, Plays, Moved, Injective, Onto, MapsInto;
    WeeksMoveTogether(es, m, natural[team]);
  }

  /** A league without idle teams is left alone, whatever is requested. */
  lemma NoByesNoChange(es: seq<ScheduleEntry>, natural: map<int, int>, bye: map<int, int>)
    requires IsNaturalByes(es, natural) && forall w, t :: !Idle(es, w, t)
    ensures Reorder(es, natural, bye) == Some(es)
  {
    assert forall t :: t !in natural;
    hide IsNaturalByes, Idle;
    assert Honoured(natural, bye) == {};
    NothingClaimed(Ordered(bye.Keys), natural, bye);
    assert Claims(Ordered(bye.Keys), natural, bye).Keys == {};
    assert Sources(es, natural, bye) == Destinations(es, natural, bye);
    RemainingMembers(Weeks(es), {});
    hide Ordered, Without;
    UnclaimedStay(es, Sources(es, natural, bye));
  }

  lemma {:induction false} NothingClaimed(ws: seq<int>, natural: map<int, int>, bye: map<int, int>)
    requires Elements(ws) <= bye.Keys && forall t :: t !in natural
    ensures Claims(ws, natural, bye) == map[]
  {
    if ws != [] {
      assert Elements(ws[..|ws| - 1]) <= bye.Keys by {
        assert ws == ws[..|ws| - 1] + [ws[|ws| - 1]];
        ElementsAppend(ws[..|ws| - 1], ws[|ws| - 1]);
      }
      NothingClaimed(ws[..|ws| - 1], natural, bye);
    }
  }

  lemma UnclaimedStay(es: seq<ScheduleEntry>, src: seq<int>)
    requires Ascending(src) && forall s :: s in src <==> s in Weeks(es)
    ensures Moved(es, Paired(map[], src, src, |src|)) == es
  {
    PairedMeaning(map[], src, src, |src|);
    var m := Paired(map[], src, src, |src|);
    forall i | 0 <= i < |es|
      ensures Moved(es, m)[i] == es[i]
    {
      WeekInUse(es, es[i].week);
      var k :| 0 <= k < |src| && src[k] == es[i].week;
      assert m[src[k]] == src[k];
    }
  }

  // ---- Exactly when every request is granted -------------------------------------------------

  ghost predicate AllGranted(es: seq<ScheduleEntry>, natural: map<int, int>, bye: map<int, int>) {
    var r := Reorder(es, natural, bye);
    && r.Some?
    && Weeks(r.value) == Weeks(es)
    && forall w :: w in Honoured(natural, bye) ==> bye[w] !in PlayingTeams(r.value, w)
  }

  /** A result week comes from some source week, and a team idle in it was idle there. */
  lemma ResultWeekHasSource(es: seq<ScheduleEntry>, natural: map<int, int>, bye: map<int, int>, week: int)
    returns (source: int)
    requires IsNaturalByes(es, natural) && !Overruns(es, natural, bye)
    requires week in Weeks(Moved(es, Remap(es, natural, bye)))
    ensures var m := Remap(es, natural, bye);
            && source in Weeks(es)
            && week == (if source in m then m[source] else source)
            && PlayingTeams(es, source) <= PlayingTeams(Moved(es, m), week)
  {
    var m := Remap(es, natural, bye);
    var r := Moved(es, m);
    var i :| 0 <= i < |r| && r[i].week == week;
    source := es[i].week;
    forall t | t in PlayingTeams(es, source)
      ensures t in PlayingTeams(r, week)
    {
      var j :| 0 <= j < |es| && es[j].week == source && (es[j].home == t || es[j].away == t);
      assert r[j].week == week;
    }
  }

  lemma GrantedWhenDistinct(es: seq<ScheduleEntry>, natural: map<int, int>, bye: map<int, int>)
    requires IsNaturalByes(es, natural) && Sensible(es, natural, bye)
    ensures AllGranted(es, natural, bye)
  {
    RemapPermutesWeeks(es, natural, bye);
    MovedKeepsWeeks(es, Remap(es, natural, bye));
    var r := Reorder(es, natural, bye).value;
    hide IsNaturalByes, Sensible, Weeks, Remap, Overruns, Honoured, MapsInto, Onto, Grants, KeepsOrder, Injective, PlayingTeams, AllTeams;
    forall w | w in Honoured(natural, bye)
      ensures bye[w] !in PlayingTeams(r, w)
    {
      RequestsAreGranted(es, natural, bye, w);
      NotPlayingIsNoMatch(r, w, bye[w]);
    }
  }

  /**
   In a schedule where nobody is idle twice, and for requests of existing weeks: all weeks are
   kept and every request that has a bye to move is granted if and only if those requests name
   different teams. (The program and its database both accept two requests of one team.)
   */
  lemma GrantedExactlyWhenDistinct(es: seq<ScheduleEntry>, natural: map<int, int>, bye: map<int, int>)
    requires IsNaturalByes(es, natural) && Honoured(natural, bye) <= Weeks(es)
    requires forall v, w, t :: Idle(es, v, t) && Idle(es, w, t) ==> v == w
    ensures AllGranted(es, natural, bye) <==> Sensible(es, natural, bye)
  {
    if Sensible(es, natural, bye) {
      GrantedWhenDistinct(es, natural, bye);
    }
    if AllGranted(es, natural, bye) {
      forall v, w | v in Honoured(natural, bye) && w in Honoured(natural, bye) && v != w
        ensures bye[v] != bye[w]
      {
        if bye[v] == bye[w] {
          TwoGrantsTwoByes(es, natural, bye, v, w);
          assert false;
        }
      }
    }
  }

  /** One team idle in two weeks of the result was idle in two weeks before. */
  lemma TwoGrantsTwoByes(es: seq<ScheduleEntry>, natural: map<int, int>, bye: map<int, int>, v: int, w: int)
    requires IsNaturalByes(es, natural) && AllGranted(es, natural, bye)
    requires v in Honoured(natural, bye) && w in Honoured(natural, bye) && v != w && bye[v] == bye[w]
    requires v in Weeks(es) && w in Weeks(es)
    ensures exists s, u :: s != u && Idle(es, s, bye[v]) && Idle(es, u, bye[v])
  {
    hide Idle, Weeks, Honoured, Reorder, AllGranted;
    var s := GrantedFromIdle(es, natural, bye, v);
    var u := GrantedFromIdle(es, natural, bye, w);
    assert s != u;
  }

  /** A granted week holds the fixtures of a week in which the team was idle, and of that week only. */
  lemma GrantedFromIdle(es: seq<ScheduleEntry>, natural: map<int, int>, bye: map<int, int>, week: int) returns (source: int)
    requires IsNaturalByes(es, natural) && AllGranted(es, natural, bye)
    requires week in Honoured(natural, bye) && week in Weeks(es)
    ensures !Overruns(es, natural, bye) && Idle(es, source, bye[week])
    ensures week == if source in Remap(es, natural, bye) then Remap(es, natural, bye)[source] else source
  {
    source := ResultWeekHasSource(es, natural, bye, week);
    NaturalIsIdle(es, natural, bye[week]);
    hide Weeks, PlayingTeams, AllTeams, Remap, Moved, Overruns, IsNaturalByes;
  }

  // ---- Dependence on the iteration order -------------------------------------------------------

  /** When idle weeks and idle teams pair off uniquely, the iteration order cannot matter. */
  lemma NaturalByesAreUnique(es: seq<ScheduleEntry>, n1: map<int, int>, n2: map<int, int>)
    requires IsNaturalByes(es, n1) && IsNaturalByes(es, n2)
    requires forall v, w, t :: Idle(es, v, t) && Idle(es, w, t) ==> v == w
    requires forall w, t, u :: Idle(es, w, t) && Idle(es, w, u) ==> t == u
    ensures n1 == n2
  {
    SameByes(es, n1, n2);
    SameByes(es, n2, n1);
    hide IsNaturalByes, Idle;
    forall t | t in n1
      ensures t in n2 && n1[t] == n2[t]
    {
    }
    forall t | t in n2
      ensures t in n1
    {
    }
    SameMap(n1, n2);
  }

  lemma SameByes(es: seq<ScheduleEntry>, n1: map<int, int>, n2: map<int, int>)
    requires IsNaturalByes(es, n1) && IsNaturalByes(es, n2)
    requires forall v, w, t :: Idle(es, v, t) && Idle(es, w, t) ==> v == w
    requires forall w, t, u :: Idle(es, w, t) && Idle(es, w, u) ==> t == u
    ensures forall t :: t in n1 ==> t in n2 && n2[t] == n1[t]
  {
    hide Idle;
    forall t | t in n1
      ensures t in n2 && n2[t] == n1[t]
    {
      assert Idle(es, n1[t], t);
      var u :| u in n2 && Idle(es, n1[t], u);
      assert u == t;
      assert Idle(es, n2[t], t);
    }
  }
}
