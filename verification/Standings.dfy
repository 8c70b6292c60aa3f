/**
 Standings: every completed match between known teams is booked on both teams' lines, which the
 program updates through pointers that coincide when a team is entered against itself.
 */
module Standings {
  import opened Prelude
  import opened MatchRecords

  /** A match as the standings see it. */
  datatype Fixture = Fixture(id: int, home: int, away: int, completed: bool)

  // ---- The outcome of one match ----------------------------------------------------------

  /** A column's total over the results of one team. */
  function TeamTotal(results: seq<ResultRow>, team: int, column: Column): int {
    if results == [] then 0
    else
      var r := results[|results| - 1];
      TeamTotal(results[..|results| - 1], team, column) + if r.team == team then Entry(r, column) else 0
  }

  /** And over all other results. */
  function OtherTotal(results: seq<ResultRow>, team: int, column: Column): int {
    if results == [] then 0
    else
      var r := results[|results| - 1];
      OtherTotal(results[..|results| - 1], team, column) + if r.team == team then 0 else Entry(r, column)
  }

  /** Two points to the team with more games won, or one each. A team entered twice counts as home. */
  function HomePoints(results: seq<ResultRow>, home: int, away: int): int {
    var h := TeamTotal(results, home, GamesWon);
    var a := if away == home then 0 else TeamTotal(results, away, GamesWon);
    if h > a then 2 else if a > h then 0 else 1
  }

  method MatchOutcome(results: seq<ResultRow>, home: int, away: int) returns (homePoints: int, awayPoints: int)
    ensures homePoints == HomePoints(results, home, away) && awayPoints == 2 - homePoints
  {
    var homeWins, awayWins := 0, 0;
    for i := 0 to |results|
      invariant homeWins == TeamTotal(results[..i], home, GamesWon)
      invariant awayWins == if away == home then 0 else TeamTotal(results[..i], away, GamesWon)
    {
      assert results[..i + 1][..i] == results[..i];
      if results[i].team == home {
        homeWins := homeWins + results[i].gamesWon;
      } else if results[i].team == away {
        awayWins := awayWins + results[i].gamesWon;
      }
    }
    assert results[..|results|] == results;
    if homeWins > awayWins {
      return 2, 0;
    } else if awayWins > homeWins {
      return 0, 2;
    } else {
      return 1, 1;
    }
  }

  // ---- Lines -------------------------------------------------------------------------------

  datatype Line = Line(played: int, wins: int, losses: int, ties: int, points: int, gamesWon: int, gamesLost: int) {
    function Plus(l: Line): Line {
      Line(played + l.played, wins + l.wins, losses + l.losses, ties + l.ties, points + l.points,
        gamesWon + l.gamesWon, gamesLost + l.gamesLost)
    }
  }

  const BLANK := Line(0, 0, 0, 0, 0, 0, 0)

  /** A match played for so many points: a win for two, a tie for one, a loss for none. */
  function PointsLine(points: int): Line {
    Line(1, if points == 2 then 1 else 0, if points == 0 then 1 else 0, if points == 1 then 1 else 0, points, 0, 0)
  }

  function HomeLine(m: Fixture, results: seq<ResultRow>): Line {
    PointsLine(HomePoints(results, m.home, m.away))
    .(gamesWon := TeamTotal(results, m.home, GamesWon), gamesLost := TeamTotal(results, m.home, GamesLost))
  }

  /** Whatever is not the home team's is booked on the away line. */
  function AwayLine(m: Fixture, results: seq<ResultRow>): Line {
    PointsLine(2 - HomePoints(results, m.home, m.away))
    .(gamesWon := OtherTotal(results, m.home, GamesWon), gamesLost := OtherTotal(results, m.home, GamesLost))
  }

  function ResultsOf(results: map<int, seq<ResultRow>>, id: int): seq<ResultRow> {
    if id in results then results[id] else []
  }

  predicate Counts(m: Fixture, teams: set<int>) {
    m.completed && m.home in teams && m.away in teams
  }

  /** What one match adds to a team's line; a team entered against itself gets both halves. */
  function Share(m: Fixture, results: map<int, seq<ResultRow>>, teams: set<int>, team: int): Line {
    if !Counts(m, teams) then BLANK
    else
      (if m.home == team then HomeLine(m, ResultsOf(results, m.id)) else BLANK)
      .Plus(if m.away == team then AwayLine(m, ResultsOf(results, m.id)) else BLANK)
  }

  function LineOf(matches: seq<Fixture>, results: map<int, seq<ResultRow>>, teams: set<int>, team: int): Line {
    if matches == [] then BLANK
    else LineOf(matches[..|matches| - 1], results, teams, team).Plus(Share(matches[|matches| - 1], results, teams, team))
  }

  // ---- The records the program updates -----------------------------------------------------

  class Standing {
    var played: int
    var wins: int
    var losses: int
    var ties: int
    var points: int
    var gamesWon: int
    var gamesLost: int

    constructor ()
      ensures Totals() == BLANK
    {
      played, wins, losses, ties, points, gamesWon, gamesLost := 0, 0, 0, 0, 0, 0, 0;
    }

    function Totals(): Line
      reads this
    {
      Line(played, wins, losses, ties, points, gamesWon, gamesLost)
    }
  }

  /** Book the played match and its points through the two pointers. */
  method BookOutcome(hs: Standing, s: Standing, homePoints: int)
    requires homePoints == 0 || homePoints == 1 || homePoints == 2
    modifies hs, s
    ensures var h, a := PointsLine(homePoints), PointsLine(2 - homePoints);
            if hs == s then hs.Totals() == old(hs.Totals()).Plus(h).Plus(a)
            else hs.Totals() == old(hs.Totals()).Plus(h) && s.Totals() == old(s.Totals()).Plus(a)
  {
    hs.played := hs.played + 1;
    s.played := s.played + 1;
    hs.points := hs.points + homePoints;
    s.points := s.points + (2 - homePoints);
    if homePoints == 2 {
      hs.wins := hs.wins + 1;
      s.losses := s.losses + 1;
    } else if homePoints == 0 {
      hs.losses := hs.losses + 1;
      s.wins := s.wins + 1;
    } else {
      hs.ties := hs.ties + 1;
      s.ties := s.ties + 1;
    }
  }

  /** Book the games of a match: the home team's on one record, all others on the other. */
  method BookGames(hs: Standing, s: Standing, results: seq<ResultRow>, home: int)
    modifies hs, s
    ensures var h := Line(0, 0, 0, 0, 0, TeamTotal(results, home, GamesWon), TeamTotal(results, home, GamesLost));
            var a := Line(0, 0, 0, 0, 0, OtherTotal(results, home, GamesWon), OtherTotal(results, home, GamesLost));
            if hs == s then hs.Totals() == old(hs.Totals()).Plus(h).Plus(a)
            else hs.Totals() == old(hs.Totals()).Plus(h) && s.Totals() == old(s.Totals()).Plus(a)
  {
    for i := 0 to |results|
      invariant var h := Line(0, 0, 0, 0, 0, TeamTotal(results[..i], home, GamesWon), TeamTotal(results[..i], home, GamesLost));
                var a := Line(0, 0, 0, 0, 0, OtherTotal(results[..i], home, GamesWon), OtherTotal(results[..i], home, GamesLost));
                if hs == s then hs.Totals() == old(hs.Totals()).Plus(h).Plus(a)
                else hs.Totals() == old(hs.Totals()).Plus(h) && s.Totals() == old(s.Totals()).Plus(a)
    {
      assert results[..i + 1][..i] == results[..i];
      if results[i].team == home {
        hs.gamesWon := hs.gamesWon + results[i].gamesWon;
        hs.gamesLost := hs.gamesLost + results[i].gamesLost;
      } else {
        s.gamesWon := s.gamesWon + results[i].gamesWon;
        s.gamesLost := s.gamesLost + results[i].gamesLost;
      }
    }
    assert results[..|results|] == results;
  }

  /** Every team has a record of its own. */
  ghost predicate OwnRecords(table: map<int, Standing>) {
    forall a, b :: a in table && b in table && a != b ==> table[a] != table[b]
  }

  /** Book a whole match through the two pointers, whether or not they coincide. */
  method BookMatch(hs: Standing, s: Standing, m: Fixture, results: seq<ResultRow>, homePoints: int)
    requires homePoints == HomePoints(results, m.home, m.away)
    modifies hs, s
    ensures hs == s ==> hs.Totals() == old(hs.Totals()).Plus(HomeLine(m, results).Plus(AwayLine(m, results)))
    ensures hs != s ==> hs.Totals() == old(hs.Totals()).Plus(HomeLine(m, results))
    ensures hs != s ==> s.Totals() == old(s.Totals()).Plus(AwayLine(m, results))
  {
    hide TeamTotal, OtherTotal;
    BookOutcome(hs, s, homePoints);
    BookGames(hs, s, results, m.home);
  }

  function LinesOf(table: map<int, Standing>): (lines: map<int, Line>)
    reads set team | team in table :: table[team]
    ensures lines.Keys == table.Keys
  {
    map team | team in table :: table[team].Totals()
  }

  /** Book a match on the records of its two teams; the other records stay as they are. */
  method BookInTable(table: map<int, Standing>, m: Fixture, results: seq<ResultRow>, homePoints: int)
    requires OwnRecords(table) && m.home in table && m.away in table
    requires homePoints == HomePoints(results, m.home, m.away)
    modifies set team | team in table :: table[team]
    ensures forall team :: team in table && team != m.home && team != m.away ==> LinesOf(table)[team] == old(LinesOf(table))[team]
    ensures m.home == m.away ==>
              LinesOf(table)[m.home] == old(LinesOf(table))[m.home].Plus(HomeLine(m, results).Plus(AwayLine(m, results)))
    ensures m.home != m.away ==> LinesOf(table)[m.home] == old(LinesOf(table))[m.home].Plus(HomeLine(m, results))
    ensures m.home != m.away ==> LinesOf(table)[m.away] == old(LinesOf(table))[m.away].Plus(AwayLine(m, results))
  {
    hide HomePoints, HomeLine, AwayLine, Line.Plus, OwnRecords, Standing.Totals;
    BookMatch(table[m.home], table[m.away], m, results, homePoints);
    forall team | team in table && team != m.home && team != m.away
      ensures table[team].Totals() == old(table[team].Totals())
    {
      UntouchedRecord(table, m, team);
    }
    UntouchedRecord(table, m, m.home);
  }

  method CountMatch(table: map<int, Standing>, m: Fixture, results: map<int, seq<ResultRow>>)
    requires OwnRecords(table)
    modifies set team | team in table :: table[team]
    ensures forall team :: team in table ==>
              LinesOf(table)[team] == old(LinesOf(table))[team].Plus(Share(m, results, table.Keys, team))
  {
    hide *;
    ghost var before := LinesOf(table);
    forall team | team in table
      ensures !Counts(m, table.Keys) ==> before[team] == before[team].Plus(Share(m, results, table.Keys, team))
    {
      UncountedShare(m, results, table.Keys, team, before[team]);
    }
    assert Counts(m, table.Keys) <==> m.completed && m.home in table && m.away in table by {
      CountsWhen(m, table.Keys);
    }
    if !m.completed {
      return;
    }
    var res := ResultsOf(results, m.id);
    var homePoints, _ := MatchOutcome(res, m.home, m.away);
    if m.home !in table || m.away !in table {
      return;
    }
    BookInTable(table, m, res, homePoints);
    forall team | team in table
      ensures LinesOf(table)[team] == before[team].Plus(Share(m, results, table.Keys, team))
    {
      ShareCases(m, results, table.Keys, team);
    }
  }

  lemma UntouchedRecord(table: map<int, Standing>, m: Fixture, team: int)
    requires OwnRecords(table) && m.home in table && m.away in table && team in table
    ensures team != m.home ==> table[team] != table[m.home]
    ensures team != m.away ==> table[team] != table[m.away]
    ensures m.home != m.away ==> table[m.home] != table[m.away]
  {
  }

  lemma CountsWhen(m: Fixture, teams: set<int>)
    ensures Counts(m, teams) <==> m.completed && m.home in teams && m.away in teams
  {
  }

  lemma UncountedShare(m: Fixture, results: map<int, seq<ResultRow>>, teams: set<int>, team: int, l: Line)
    ensures !Counts(m, teams) ==> l == l.Plus(Share(m, results, teams, team))
  {
  }

  lemma ShareCases(m: Fixture, results: map<int, seq<ResultRow>>, teams: set<int>, team: int)
    requires Counts(m, teams)
    ensures var h, a := HomeLine(m, ResultsOf(results, m.id)), AwayLine(m, ResultsOf(results, m.id));
            Share(m, results, teams, team) ==
            if team == m.home == m.away then h.Plus(a) else if team == m.home then h else if team == m.away then a else BLANK
    ensures forall l: Line :: l.Plus(BLANK) == l
  {
    hide HomeLine, AwayLine;
  }

  // ---- The table ---------------------------------------------------------------------------

  datatype Row = Row(team: int, line: Line, winPct: real)

  function WinPct(l: Line): real {
    if l.played > 0 then l.wins as real / l.played as real else 0.0
  }

  function RowFor(matches: seq<Fixture>, results: map<int, seq<ResultRow>>, teams: set<int>, team: int): Row {
    var line := LineOf(matches, results, teams, team);
    Row(team, line, WinPct(line))
  }

  function TeamsOf(rows: seq<Row>): (teams: seq<int>)
    ensures |teams| == |rows|
  {
    seq(|rows|, i requires 0 <= i < |rows| => rows[i].team)
  }

  /** Whether a row is listed strictly before another: more points, then wins, then games won. */
  predicate Ahead(a: Row, b: Row) {
    if a.line.points != b.line.points then a.line.points > b.line.points
    else if a.line.wins != b.line.wins then a.line.wins > b.line.wins
    else a.line.gamesWon > b.line.gamesWon
  }

  predicate Sorted(rows: seq<Row>) {
    forall i, j :: 0 <= i < j < |rows| ==> !Ahead(rows[j], rows[i])
  }

  /** The standings: one row per team, best first. */
  ghost predicate AreStandings(rows: seq<Row>, matches: seq<Fixture>, results: map<int, seq<ResultRow>>, teams: set<int>) {
    && Distinct(TeamsOf(rows))
    && (forall team :: team in TeamsOf(rows) <==> team in teams)
    && (forall i :: 0 <= i < |rows| ==> rows[i] == RowFor(matches, results, teams, rows[i].team))
    && Sorted(rows)
  }

  method BlankTable(teams: seq<int>) returns (table: map<int, Standing>)
    ensures OwnRecords(table)
    ensures forall team :: team in table <==> team in teams
    ensures forall team :: team in table ==> fresh(table[team]) && table[team].Totals() == BLANK
  {
    table := map[];
    for i := 0 to |teams|
      invariant OwnRecords(table)
      invariant forall team :: team in table <==> team in teams[..i]
      invariant forall team :: team in table ==> fresh(table[team]) && table[team].Totals() == BLANK
    {
      var s := new Standing();
      assert teams[..i + 1] == teams[..i] + [teams[i]];
      table := table[teams[i] := s];
    }
    assert teams[..|teams|] == teams;
  }

  /** The records are read out in no particular order. */
  method ReadOut(table: map<int, Standing>) returns (rows: seq<Row>)
    ensures Distinct(TeamsOf(rows))
    ensures forall team :: team in TeamsOf(rows) <==> team in table
    ensures forall i :: 0 <= i < |rows| ==>
              var team := rows[i].team;
              team in table && rows[i] == Row(team, table[team].Totals(), WinPct(table[team].Totals()))
  {
    rows := [];
    var remaining := table.Keys;
    while remaining != {}
      invariant remaining <= table.Keys
      invariant Distinct(TeamsOf(rows))
      invariant forall team :: team in TeamsOf(rows) <==> team in table && team !in remaining
      invariant forall i :: 0 <= i < |rows| ==>
                  var team := rows[i].team;
                  team in table && rows[i] == Row(team, table[team].Totals(), WinPct(table[team].Totals()))
      decreases remaining
    {
      ghost var _ := SomeElement(remaining);
      var team :| team in remaining;
      var row := Row(team, table[team].Totals(), WinPct(table[team].Totals()));
      assert TeamsOf(rows + [row]) == TeamsOf(rows) + [team];
      rows := rows + [row];
      remaining := remaining - {team};
    }
  }

  /** Sort into any order that Ahead allows. */
  method SortRows(rows: seq<Row>) returns (sorted: seq<Row>)
    ensures multiset(sorted) == multiset(rows) && Sorted(sorted)
  {
    sorted := [];
    for i := 0 to |rows|
      invariant multiset(sorted) == multiset(rows[..i]) && Sorted(sorted)
    {
      assert rows[..i + 1] == rows[..i] + [rows[i]];
      var k := |sorted|;
      while k > 0 && Ahead(rows[i], sorted[k - 1])
        invariant 0 <= k <= |sorted|
        invariant forall j :: k <= j < |sorted| ==> Ahead(rows[i], sorted[j])
      {
        k := k - 1;
      }
      hide Sorted, Ahead;
      InsertSorted(sorted, k, rows[i]);
      sorted := sorted[..k] + [rows[i]] + sorted[k..];
    }
    assert rows[..|rows|] == rows;
  }

  /** A row goes between those it is not ahead of and those it is ahead of. */
  lemma InsertSorted(sorted: seq<Row>, k: nat, row: Row)
    requires Sorted(sorted) && k <= |sorted|
    requires k > 0 ==> !Ahead(row, sorted[k - 1])
    requires forall j :: k <= j < |sorted| ==> Ahead(row, sorted[j])
    ensures Sorted(sorted[..k] + [row] + sorted[k..])
    ensures multiset(sorted[..k] + [row] + sorted[k..]) == multiset(sorted) + multiset{row}
  {
    hide Ahead;
    forall i | 0 <= i < k
      ensures !Ahead(row, sorted[i])
    {
      if i < k - 1 {
        NotAheadFurtherOn(row, sorted[k - 1], sorted[i]);
      }
    }
    forall j | k <= j < |sorted|
      ensures !Ahead(sorted[j], row)
    {
      NotBothAhead(row, sorted[j]);
    }
    hide Sorted;
    SpliceSorted(sorted, k, row);
    SpliceCounts(sorted, k, row);
  }

  lemma NotAheadFurtherOn(a: Row, b: Row, c: Row)
    requires !Ahead(a, b) && !Ahead(b, c)
    ensures !Ahead(a, c)
  {
  }

  lemma NotBothAhead(a: Row, b: Row)
    requires Ahead(a, b)
    ensures !Ahead(b, a)
  {
  }

  lemma SpliceCounts(sorted: seq<Row>, k: nat, row: Row)
    requires k <= |sorted|
    ensures multiset(sorted[..k] + [row] + sorted[k..]) == multiset(sorted) + multiset{row}
  {
    assert sorted == sorted[..k] + sorted[k..];
  }

  lemma SpliceSorted(sorted: seq<Row>, k: nat, row: Row)
    requires Sorted(sorted) && k <= |sorted|
    requires forall i :: 0 <= i < k ==> !Ahead(row, sorted[i])
    requires forall j :: k <= j < |sorted| ==> !Ahead(sorted[j], row)
    ensures Sorted(sorted[..k] + [row] + sorted[k..])
  {
    hide Ahead;
    var t := sorted[..k] + [row] + sorted[k..];
    forall i, j | 0 <= i < j < |t|
      ensures !Ahead(t[j], t[i])
    {
      assert t[i] == if i < k then sorted[i] else if i == k then row else sorted[i - 1];
      assert t[j] == if j < k then sorted[j] else if j == k then row else sorted[j - 1];
    }
  }

  method ComputeStandings(matches: seq<Fixture>, results: map<int, seq<ResultRow>>, teams: seq<int>) returns (rows: seq<Row>)
    ensures AreStandings(rows, matches, results, set team | team in teams)
  {
    var table := BlankTable(teams);
    ghost var known := set team | team in teams;
    forall team
      ensures team in table.Keys <==> team in known
    {
    }
    SameElements(table.Keys, known);
    for i := 0 to |matches|
      invariant forall team :: team in table ==> fresh(table[team])
      invariant forall team :: team in table ==> LinesOf(table)[team] == LineOf(matches[..i], results, known, team)
    {
      hide Share;
      assert matches[..i + 1][..i] == matches[..i];
      CountMatch(table, matches[i], results);
    }
    assert matches[..|matches|] == matches;
    var out := ReadOut(table);
    rows := SortRows(out);
    SortingKeepsRows(out, rows);
    hide LineOf;
    forall i | 0 <= i < |rows|
      ensures rows[i] == RowFor(matches, results, known, rows[i].team)
    {
      assert rows[i] in out;
      var k :| 0 <= k < |out| && out[k] == rows[i];
    }
  }

  lemma SortingKeepsRows(rows: seq<Row>, sorted: seq<Row>)
    requires multiset(sorted) == multiset(rows) && Distinct(TeamsOf(rows))
    ensures Distinct(TeamsOf(sorted))
    ensures forall row :: row in sorted <==> row in rows
    ensures forall team :: team in TeamsOf(sorted) <==> team in TeamsOf(rows)
  {
    forall row
      ensures row in sorted <==> row in rows
    {
      assert row in sorted <==> row in multiset(sorted);
      assert row in rows <==> row in multiset(rows);
    }
    forall i, j | 0 <= i < j < |sorted|
      ensures sorted[i].team != sorted[j].team
    {
      RepeatedRow(rows, sorted, i, j);
    }
    TeamsCarryOver(rows, sorted);
    TeamsCarryOver(sorted, rows);
  }

  lemma TeamsCarryOver(rows: seq<Row>, sorted: seq<Row>)
    requires forall row :: row in rows ==> row in sorted
    ensures forall team :: team in TeamsOf(rows) ==> team in TeamsOf(sorted)
  {
    forall team | team in TeamsOf(rows)
      ensures team in TeamsOf(sorted)
    {
      var i :| 0 <= i < |rows| && TeamsOf(rows)[i] == team;
      assert rows[i] in sorted;
      var j :| 0 <= j < |sorted| && sorted[j] == rows[i];
      assert TeamsOf(sorted)[j] == team;
    }
  }

  /** Rows of distinct teams stay rows of distinct teams in any order. */
  lemma RepeatedRow(rows: seq<Row>, sorted: seq<Row>, i: nat, j: nat)
    requires multiset(sorted) == multiset(rows) && Distinct(TeamsOf(rows)) && i < j < |sorted|
    ensures sorted[i].team != sorted[j].team
  {
    forall k, l | 0 <= k < l < |rows|
      ensures rows[k].team != rows[l].team
    {
      assert TeamsOf(rows)[k] != TeamsOf(rows)[l];
    }
    DistinctCount(rows, sorted[i]);
    if sorted[i] == sorted[j] {
      CountsTwice(sorted, i, j);
      assert false;
    }
    assert sorted[i] in multiset(rows) && sorted[j] in multiset(rows);
    var k :| 0 <= k < |rows| && rows[k] == sorted[i];
    var l :| 0 <= l < |rows| && rows[l] == sorted[j];
  }

  lemma CountsTwice(rows: seq<Row>, i: nat, j: nat)
    requires i < j < |rows| && rows[i] == rows[j]
    ensures multiset(rows)[rows[i]] >= 2
  {
    assert rows == rows[..i] + [rows[i]] + rows[i + 1..j] + [rows[j]] + rows[j + 1..];
  }
}
