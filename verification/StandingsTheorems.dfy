/** What the standings promise: balanced lines, two points a match, and no dependence on order. */
module StandingsTheorems {
  import opened Prelude
  import opened MatchRecords
  import opened Standings

  // ---- Every line balances ----------------------------------------------------------------

  predicate Balanced(l: Line) {
    && l.played == l.wins + l.losses + l.ties && l.points == 2 * l.wins + l.ties
    && l.wins >= 0 && l.losses >= 0 && l.ties >= 0
  }

  lemma BalancedSum(k: Line, l: Line)
    requires Balanced(k) && Balanced(l)
    ensures Balanced(k.Plus(l))
  {
  }

  /** How often a team is entered in completed matches between known teams. */
  function Appearances(matches: seq<Fixture>, teams: set<int>, team: int): nat {
    if matches == [] then 0
    else
      var m := matches[|matches| - 1];
      Appearances(matches[..|matches| - 1], teams, team) +
      if m.completed && m.home in teams && m.away in teams
      then (if m.home == team then 1 else 0) + (if m.away == team then 1 else 0)
      else 0
  }

  /** Main result: a line counts the completed matches of its team between known teams, and no others. */
  lemma {:induction false} PlayedAreAppearances(matches: seq<Fixture>, results: map<int, seq<ResultRow>>, teams: set<int>, team: int)
    ensures LineOf(matches, results, teams, team).played == Appearances(matches, teams, team)
  {
    if matches != [] {
      PlayedAreAppearances(matches[..|matches| - 1], results, teams, team);
      hide HomePoints, TeamTotal, OtherTotal;
    }
  }

  /** Main result: every team has played what it won, lost and tied, at two points a win and one a tie. */
  lemma {:induction false} LinesBalance(matches: seq<Fixture>, results: map<int, seq<ResultRow>>, teams: set<int>, team: int)
    ensures Balanced(LineOf(matches, results, teams, team))
  {
    if matches != [] {
      var m := matches[|matches| - 1];
      LinesBalance(matches[..|matches| - 1], results, teams, team);
      ShareBalances(m, results, teams, team);
      hide Balanced, Share;
      BalancedSum(LineOf(matches[..|matches| - 1], results, teams, team), Share(m, results, teams, team));
    }
  }

  lemma HalvesBalance(m: Fixture, res: seq<ResultRow>)
    ensures Balanced(HomeLine(m, res)) && Balanced(AwayLine(m, res))
  {
    hide TeamTotal, OtherTotal;
  }

  lemma ShareBalances(m: Fixture, results: map<int, seq<ResultRow>>, teams: set<int>, team: int)
    ensures Balanced(Share(m, results, teams, team))
  {
    hide *;
    assert Balanced(BLANK) && (!Counts(m, teams) ==> Share(m, results, teams, team) == BLANK) by {
      BlankBalances(m, results, teams, team);
    }
    if Counts(m, teams) {
      HalvesBalance(m, ResultsOf(results, m.id));
      ShareCases(m, results, teams, team);
      BalancedSum(HomeLine(m, ResultsOf(results, m.id)), AwayLine(m, ResultsOf(results, m.id)));
    }
  }

  lemma BlankBalances(m: Fixture, results: map<int, seq<ResultRow>>, teams: set<int>, team: int)
    ensures Balanced(BLANK) && (!Counts(m, teams) ==> Share(m, results, teams, team) == BLANK)
  {
    hide HomeLine, AwayLine;
  }

  // ---- The whole table ---------------------------------------------------------------------

  /** The lines of a list of teams, added up. */
  function SumOf(listed: seq<int>, matches: seq<Fixture>, results: map<int, seq<ResultRow>>, teams: set<int>): Line {
    if listed == [] then BLANK
    else SumOf(listed[..|listed| - 1], matches, results, teams).Plus(LineOf(matches, results, teams, listed[|listed| - 1]))
  }

  function SharesOf(listed: seq<int>, m: Fixture, results: map<int, seq<ResultRow>>, teams: set<int>): Line {
    if listed == [] then BLANK
    else SharesOf(listed[..|listed| - 1], m, results, teams).Plus(Share(m, results, teams, listed[|listed| - 1]))
  }

  function CountedMatches(matches: seq<Fixture>, teams: set<int>): nat {
    if matches == [] then 0
    else CountedMatches(matches[..|matches| - 1], teams) + if Counts(matches[|matches| - 1], teams) then 1 else 0
  }

  lemma {:induction false} BlankSum(listed: seq<int>, results: map<int, seq<ResultRow>>, teams: set<int>)
    ensures SumOf(listed, [], results, teams) == BLANK
  {
    if listed != [] {
      BlankSum(listed[..|listed| - 1], results, teams);
    }
  }

  lemma {:induction false} SumStep(listed: seq<int>, matches: seq<Fixture>, results: map<int, seq<ResultRow>>, teams: set<int>)
    requires matches != []
    ensures SumOf(listed, matches, results, teams) ==
            SumOf(listed, matches[..|matches| - 1], results, teams).Plus(SharesOf(listed, matches[|matches| - 1], results, teams))
  {
    if listed != [] {
      hide Share;
      SumStep(listed[..|listed| - 1], matches, results, teams);
    }
  }

  /** A match's home half, its away half, both or neither. */
  function Halves(home: bool, away: bool, h: Line, a: Line): Line {
    (if home then h else BLANK).Plus(if away then a else BLANK)
  }

  lemma PlusLaws(k: Line, l: Line)
    ensures k.Plus(BLANK) == k == BLANK.Plus(k)
    ensures k.Plus(l) == l.Plus(k)
  {
  }

  lemma HalvesAddUp(home: bool, away: bool, home': bool, away': bool, h: Line, a: Line)
    requires !(home && home') && !(away && away')
    ensures Halves(home, away, h, a).Plus(Halves(home', away', h, a)) == Halves(home || home', away || away', h, a)
  {
    hide Line.Plus;
    PlusLaws(h, a);
    PlusLaws(a, h);
    PlusLaws(BLANK, BLANK);
    PlusLaws(h.Plus(a), BLANK);
  }

  lemma ShareIsHalves(m: Fixture, results: map<int, seq<ResultRow>>, teams: set<int>, team: int)
    ensures var res := ResultsOf(results, m.id);
            Share(m, results, teams, team) ==
            Halves(Counts(m, teams) && m.home == team, Counts(m, teams) && m.away == team, HomeLine(m, res), AwayLine(m, res))
  {
    hide HomeLine, AwayLine;
  }

  /** One match's shares over distinct teams: both halves, each once, when both teams are listed. */
  lemma {:induction false} SharesAddUp(listed: seq<int>, m: Fixture, results: map<int, seq<ResultRow>>, teams: set<int>)
    requires Distinct(listed)
    ensures var res := ResultsOf(results, m.id);
            SharesOf(listed, m, results, teams) ==
            Halves(Counts(m, teams) && m.home in listed, Counts(m, teams) && m.away in listed, HomeLine(m, res), AwayLine(m, res))
  {
    hide *;
    var counts, h, a := Counts(m, teams), HomeLine(m, ResultsOf(results, m.id)), AwayLine(m, ResultsOf(results, m.id));
    if listed == [] {
      NoShares(m, results, teams, h, a);
    } else {
      var init, last := listed[..|listed| - 1], listed[|listed| - 1];
      LastIsNew(listed);
      SharesAddUp(init, m, results, teams);
      ShareIsHalves(m, results, teams, last);
      SharesStep(listed, m, results, teams);
      HalvesAddUp(counts && m.home in init, counts && m.away in init, counts && m.home == last, counts && m.away == last, h, a);
    }
  }

  lemma NoShares(m: Fixture, results: map<int, seq<ResultRow>>, teams: set<int>, h: Line, a: Line)
    ensures SharesOf([], m, results, teams) == Halves(false, false, h, a)
  {
  }

  lemma SharesStep(listed: seq<int>, m: Fixture, results: map<int, seq<ResultRow>>, teams: set<int>)
    requires listed != []
    ensures SharesOf(listed, m, results, teams) ==
            SharesOf(listed[..|listed| - 1], m, results, teams).Plus(Share(m, results, teams, listed[|listed| - 1]))
  {
    hide Share, Line.Plus;
  }

  lemma LastIsNew(listed: seq<int>)
    requires listed != [] && Distinct(listed)
    ensures var init, last := listed[..|listed| - 1], listed[|listed| - 1];
            Distinct(init) && last !in init && forall team :: team in listed <==> team in init || team == last
  {
    assert listed == listed[..|listed| - 1] + [listed[|listed| - 1]];
  }

  /** What one match adds to the table as a whole. */
  lemma TableGains(listed: seq<int>, m: Fixture, results: map<int, seq<ResultRow>>, teams: set<int>)
    requires Distinct(listed) && forall team :: team in listed <==> team in teams
    ensures var res := ResultsOf(results, m.id);
            SharesOf(listed, m, results, teams) == if Counts(m, teams) then HomeLine(m, res).Plus(AwayLine(m, res)) else BLANK
  {
    var h, a := HomeLine(m, ResultsOf(results, m.id)), AwayLine(m, ResultsOf(results, m.id));
    PlusLaws(BLANK, BLANK);
    hide HomeLine, AwayLine, ResultsOf, SharesOf, Line.Plus;
    SharesAddUp(listed, m, results, teams);
    assert Counts(m, teams) ==> m.home in listed && m.away in listed;
  }

  predicate Even(l: Line, matches: nat) {
    l.played == 2 * matches && l.points == 2 * matches && l.wins == l.losses
  }

  lemma MatchIsEven(m: Fixture, res: seq<ResultRow>)
    ensures Even(HomeLine(m, res).Plus(AwayLine(m, res)), 1) && Even(BLANK, 0)
  {
    hide TeamTotal, OtherTotal;
  }

  lemma EvenSum(k: Line, i: nat, l: Line, j: nat)
    requires Even(k, i) && Even(l, j)
    ensures Even(k.Plus(l), i + j)
  {
  }

  /**
   Main result: over the teams of the table, taken once each, every counted match is played twice
   and worth exactly two points, and there are as many wins as losses.
   */
  lemma {:induction false} TwoPointsAMatch(listed: seq<int>, matches: seq<Fixture>, results: map<int, seq<ResultRow>>, teams: set<int>)
    requires Distinct(listed) && forall team :: team in listed <==> team in teams
    ensures Even(SumOf(listed, matches, results, teams), CountedMatches(matches, teams))
  {
    hide *;
    if matches == [] {
      BlankSum(listed, results, teams);
      NoMatchesCounted(teams);
    } else {
      var m, earlier := matches[|matches| - 1], matches[..|matches| - 1];
      TwoPointsAMatch(listed, earlier, results, teams);
      SumStep(listed, matches, results, teams);
      CountedStep(matches, teams);
      TableGains(listed, m, results, teams);
      MatchIsEven(m, ResultsOf(results, m.id));
      EvenSum(SumOf(listed, earlier, results, teams), CountedMatches(earlier, teams),
        SharesOf(listed, m, results, teams), if Counts(m, teams) then 1 else 0);
    }
  }

  lemma NoMatchesCounted(teams: set<int>)
    ensures CountedMatches([], teams) == 0 && Even(BLANK, 0)
  {
  }

  lemma CountedStep(matches: seq<Fixture>, teams: set<int>)
    requires matches != []
    ensures CountedMatches(matches, teams) ==
            CountedMatches(matches[..|matches| - 1], teams) + if Counts(matches[|matches| - 1], teams) then 1 else 0
  {
  }

  // ---- Games -----------------------------------------------------------------------------------

  lemma {:induction false} ColumnSplits(results: seq<ResultRow>, team: int, column: Column)
    ensures TeamTotal(results, team, column) + OtherTotal(results, team, column) == Total(results, column)
  {
    if results != [] {
      ColumnSplits(results[..|results| - 1], team, column);
    }
  }

  /** Main result: if every match's results have as many games won as lost, so does the table. */
  lemma {:induction false} GamesBalance(listed: seq<int>, matches: seq<Fixture>, results: map<int, seq<ResultRow>>, teams: set<int>)
    requires Distinct(listed) && forall team :: team in listed <==> team in teams
    requires forall id :: id in results ==> Total(results[id], GamesWon) == Total(results[id], GamesLost)
    ensures var total := SumOf(listed, matches, results, teams); total.gamesWon == total.gamesLost
  {
    if matches == [] {
      BlankSum(listed, results, teams);
    } else {
      var n := |matches| - 1;
      hide SumOf, SharesOf, Share, HomePoints;
      GamesBalance(listed, matches[..n], results, teams);
      SumStep(listed, matches, results, teams);
      TableGains(listed, matches[n], results, teams);
      ColumnSplits(ResultsOf(results, matches[n].id), matches[n].home, GamesWon);
      ColumnSplits(ResultsOf(results, matches[n].id), matches[n].home, GamesLost);
      assert Total([], GamesWon) == Total([], GamesLost);
    }
  }

  // ---- Order does not matter ---------------------------------------------------------------------

  lemma PlusCommutes(k: Line, l: Line, m: Line)
    ensures k.Plus(l).Plus(m) == k.Plus(m).Plus(l)
  {
  }

  /** Any one match can be booked last. */
  lemma {:induction false} BookedLast(matches: seq<Fixture>, results: map<int, seq<ResultRow>>, teams: set<int>, team: int, i: nat)
    requires i < |matches|
    ensures LineOf(matches, results, teams, team) ==
            LineOf(matches[..i] + matches[i + 1..], results, teams, team).Plus(Share(matches[i], results, teams, team))
  {
    var n := |matches| - 1;
    hide Share, Line.Plus;
    if i == n {
      assert matches[..i] + matches[i + 1..] == matches[..n];
    } else {
      BookedLast(matches[..n], results, teams, team, i);
      var rest := matches[..i] + matches[i + 1..];
      assert matches[..n][..i] + matches[..n][i + 1..] == rest[..n - 1];
      assert rest[n - 1] == matches[n];
      PlusCommutes(LineOf(rest[..n - 1], results, teams, team), Share(matches[i], results, teams, team), Share(matches[n], results, teams, team));
    }
  }

  /** Main result: the lines are the same for the same matches in any order. */
  lemma {:induction false} OrderDoesNotMatter(xs: seq<Fixture>, ys: seq<Fixture>, results: map<int, seq<ResultRow>>, teams: set<int>, team: int)
    requires multiset(xs) == multiset(ys)
    ensures LineOf(xs, results, teams, team) == LineOf(ys, results, teams, team)
  {
    hide *;
    if xs == [] {
      assert |ys| == |multiset(ys)| && |xs| == |multiset(xs)|;
      assert ys == xs;
    } else {
      var n := |xs| - 1;
      var i := TakeOut(xs, ys);
      OrderDoesNotMatter(xs[..n], ys[..i] + ys[i + 1..], results, teams, team);
      BookedLast(ys, results, teams, team, i);
      BookedLast(xs, results, teams, team, n);
      assert xs[..n] + xs[n + 1..] == xs[..n];
    }
  }

  // ---- The listed order -----------------------------------------------------------------------------

  /** Main result: two tables of the same matches, in any order, hold the same rows. */
  lemma SameRowsAnyOrder(v: seq<Row>, w: seq<Row>, xs: seq<Fixture>, ys: seq<Fixture>, results: map<int, seq<ResultRow>>, teams: set<int>)
    requires multiset(xs) == multiset(ys)
    requires AreStandings(v, xs, results, teams) && AreStandings(w, ys, results, teams)
    ensures multiset(v) == multiset(w)
  {
    hide LineOf, Sorted;
    forall team
      ensures LineOf(xs, results, teams, team) == LineOf(ys, results, teams, team)
    {
      OrderDoesNotMatter(xs, ys, results, teams, team);
    }
    DistinctRows(v);
    DistinctRows(w);
    RowsIncluded(v, w);
    RowsIncluded(w, v);
    SameDistinctElements(v, w);
  }

  lemma DistinctRows(v: seq<Row>)
    requires Distinct(TeamsOf(v))
    ensures Distinct(v)
  {
    forall i, j | 0 <= i < j < |v|
      ensures v[i] != v[j]
    {
      assert TeamsOf(v)[i] != TeamsOf(v)[j];
    }
  }

  lemma RowsIncluded(v: seq<Row>, w: seq<Row>)
    requires forall team :: team in TeamsOf(v) ==> team in TeamsOf(w)
    requires forall i, j :: 0 <= i < |v| && 0 <= j < |w| && v[i].team == w[j].team ==> v[i] == w[j]
    ensures forall row :: row in v ==> row in w
  {
    forall row | row in v
      ensures row in w
    {
      var i :| 0 <= i < |v| && v[i] == row;
      assert TeamsOf(v)[i] in TeamsOf(w);
      var j :| 0 <= j < |w| && TeamsOf(w)[j] == row.team;
      assert w[j] == row;
    }
  }

  /** What a row is ranked by. */
  datatype Rank = Rank(points: int, wins: int, gamesWon: int)

  function RankOf(row: Row): Rank {
    Rank(row.line.points, row.line.wins, row.line.gamesWon)
  }

  function RanksOf(rows: seq<Row>): (ranks: seq<Rank>)
    ensures |ranks| == |rows|
  {
    seq(|rows|, i requires 0 <= i < |rows| => RankOf(rows[i]))
  }

  predicate NotBelow(a: Rank, b: Rank) {
    a.points > b.points || (a.points == b.points && (a.wins > b.wins || (a.wins == b.wins && a.gamesWon >= b.gamesWon)))
  }

  predicate Descending(ranks: seq<Rank>) {
    forall i, j :: 0 <= i < j < |ranks| ==> NotBelow(ranks[i], ranks[j])
  }

  lemma SortedIsDescending(rows: seq<Row>)
    requires Sorted(rows)
    ensures Descending(RanksOf(rows))
  {
    forall i, j | 0 <= i < j < |rows|
      ensures NotBelow(RankOf(rows[i]), RankOf(rows[j]))
    {
      assert !Ahead(rows[j], rows[i]);
    }
  }

  lemma {:induction false} RanksArePermuted(v: seq<Row>, w: seq<Row>)
    requires multiset(v) == multiset(w)
    ensures multiset(RanksOf(v)) == multiset(RanksOf(w))
  {
    if v == [] {
      assert |w| == |multiset(w)| && |v| == |multiset(v)|;
    } else {
      var n := |v| - 1;
      var i := TakeOut(v, w);
      var rest := w[..i] + w[i + 1..];
      hide RankOf;
      RanksArePermuted(v[..n], rest);
      assert RanksOf(v) == RanksOf(v[..n]) + [RankOf(v[n])];
      assert RanksOf(rest) == RanksOf(w[..i]) + RanksOf(w[i + 1..]);
      assert RanksOf(w) == RanksOf(w[..i]) + [RankOf(w[i])] + RanksOf(w[i + 1..]);
    }
  }

  lemma LastIsLowest(a: seq<Rank>, rank: Rank)
    requires Descending(a) && rank in multiset(a)
    ensures NotBelow(rank, a[|a| - 1])
  {
    assert rank in a;
    var j :| 0 <= j < |a| && a[j] == rank;
  }

  lemma {:induction false} DescendingIsUnique(a: seq<Rank>, b: seq<Rank>)
    requires Descending(a) && Descending(b) && multiset(a) == multiset(b)
    ensures a == b
  {
    hide *;
    assert |a| == |multiset(a)| && |b| == |multiset(b)|;
    if a != [] {
      var n := |a| - 1;
      SameLowest(a, b);
      InitDescends(a);
      InitDescends(b);
      var i := TakeOut(a, b);
      WithoutOneLast(b, i);
      DescendingIsUnique(a[..n], b[..n]);
      assert a == a[..n] + [a[n]] && b == b[..n] + [b[n]];
    }
  }

  lemma SameLowest(a: seq<Rank>, b: seq<Rank>)
    requires Descending(a) && Descending(b) && multiset(a) == multiset(b) && a != [] && b != []
    ensures a[|a| - 1] == b[|b| - 1]
  {
    hide Descending;
    assert a[|a| - 1] in multiset(a) && b[|b| - 1] in multiset(b);
    LastIsLowest(a, b[|b| - 1]);
    LastIsLowest(b, a[|a| - 1]);
  }

  lemma InitDescends(a: seq<Rank>)
    requires Descending(a) && a != []
    ensures Descending(a[..|a| - 1])
  {
  }

  /** Taking out any element equal to the last leaves the same ranks as taking out the last. */
  lemma WithoutOneLast(b: seq<Rank>, i: nat)
    requires i < |b| && b[i] == b[|b| - 1]
    ensures multiset(b[..i] + b[i + 1..]) == multiset(b[..|b| - 1])
  {
    var n := |b| - 1;
    assert b[..n] + b[n + 1..] == b[..n];
    forall rank
      ensures multiset(b[..n])[rank] == multiset(b[..i] + b[i + 1..])[rank]
    {
      RemovedCount(b, i, rank);
      RemovedCount(b, n, rank);
    }
  }

  /** Main result: the order is settled up to ties; every place has the same points, wins and games won. */
  lemma PlacesAreSettled(v: seq<Row>, w: seq<Row>, xs: seq<Fixture>, ys: seq<Fixture>, results: map<int, seq<ResultRow>>, teams: set<int>)
    requires multiset(xs) == multiset(ys)
    requires AreStandings(v, xs, results, teams) && AreStandings(w, ys, results, teams)
    ensures RanksOf(v) == RanksOf(w)
  {
    SameRowsAnyOrder(v, w, xs, ys, results, teams);
    assert Sorted(v) && Sorted(w);
    hide AreStandings, RanksOf, Descending, Sorted;
    SortedIsDescending(v);
    SortedIsDescending(w);
    RanksArePermuted(v, w);
    DescendingIsUnique(RanksOf(v), RanksOf(w));
  }
}
