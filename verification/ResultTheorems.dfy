/** What the results of a sheet add up to, and that they give the match to the side that won more games. */
module ResultTheorems {
  import opened Prelude
  import opened MatchRecords
  import opened Scoresheet
  import opened Tallies
  import opened SaveRounds
  import opened ScoresheetTheorems
  import opened Standings
  import opened StandingsTheorems

  // ---- Column totals --------------------------------------------------------------------

  /** What is counted in a column, one entry an occurrence. */
  function Counted(ps: seq<Pairing>, roundWinners: map<int, Side>, column: Column): seq<int> {
    match column
    case GamesWon => Winners(ps)
    case GamesLost => Losers(ps)
    case SetsWon => SetWinners(ps, roundWinners)
    case SetsLost => SetLosers(ps, roundWinners)
  }

  lemma {:induction false} ColumnIsTotalCount(results: seq<ResultRow>, column: Column, xs: seq<int>)
    requires forall i :: 0 <= i < |results| ==> Entry(results[i], column) == Count(xs, results[i].player)
    ensures Total(results, column) == TotalCount(PlayersOf(results), xs)
  {
    if results != [] {
      var n := |results| - 1;
      hide Entry, Count;
      ColumnIsTotalCount(results[..n], column, xs);
      assert PlayersOf(results)[..n] == PlayersOf(results[..n]);
    }
  }

  lemma CountedColumns(ps: seq<Pairing>, roundWinners: map<int, Side>)
    ensures Counted(ps, roundWinners, GamesWon) == Winners(ps) && Counted(ps, roundWinners, GamesLost) == Losers(ps)
    ensures Counted(ps, roundWinners, SetsWon) == SetPlayers(ps, roundWinners, true)
    ensures Counted(ps, roundWinners, SetsLost) == SetPlayers(ps, roundWinners, false)
  {
  }

  lemma ColumnTotal(results: seq<ResultRow>, ps: seq<Pairing>, roundWinners: map<int, Side>, homeTeam: int, awayTeam: int, column: Column)
    requires AreResults(results, ps, roundWinners, homeTeam, awayTeam)
    ensures Total(results, column) == |Counted(ps, roundWinners, column)|
  {
    hide Winners, Losers, SetWinners, SetLosers, TeamOf, Count, Total;
    ColumnIsTotalCount(results, column, Counted(ps, roundWinners, column));
    CountsAddUp(PlayersOf(results), Counted(ps, roundWinners, column));
  }

  lemma {:induction false} OneLoserPerWinner(p: Pairing, gs: seq<Game>)
    ensures |GameWinners(p, gs)| == |GameLosers(p, gs)|
  {
    if gs != [] {
      OneLoserPerWinner(p, gs[..|gs| - 1]);
    }
  }

  lemma {:induction false} AsManyLosersAsWinners(ps: seq<Pairing>)
    ensures |Winners(ps)| == |Losers(ps)|
  {
    if ps != [] {
      AsManyLosersAsWinners(ps[..|ps| - 1]);
      OneLoserPerWinner(ps[|ps| - 1], ps[|ps| - 1].Games());
    }
  }

  /** How many pairings lie in won rounds. */
  function PairingsInWonRounds(ps: seq<Pairing>, roundWinners: map<int, Side>): nat {
    if ps == [] then 0
    else PairingsInWonRounds(ps[..|ps| - 1], roundWinners) + if ps[|ps| - 1].round in roundWinners then 1 else 0
  }

  lemma {:induction false} OneSetPerPairing(ps: seq<Pairing>, roundWinners: map<int, Side>, won: bool)
    ensures |SetPlayers(ps, roundWinners, won)| == PairingsInWonRounds(ps, roundWinners)
  {
    if ps != [] {
      OneSetPerPairing(ps[..|ps| - 1], roundWinners, won);
    }
  }

  function TotalDiff(results: seq<ResultRow>): real {
    if results == [] then 0.0 else TotalDiff(results[..|results| - 1]) + results[|results| - 1].diff
  }

  lemma {:induction false} DiffIsWonLessLost(results: seq<ResultRow>)
    requires forall i :: 0 <= i < |results| ==> results[i].diff == (results[i].gamesWon - results[i].gamesLost) as real
    ensures TotalDiff(results) == (Total(results, GamesWon) - Total(results, GamesLost)) as real
  {
    if results != [] {
      DiffIsWonLessLost(results[..|results| - 1]);
    }
  }

  /** The games of a sheet that a side won. */
  function WonGames(ps: seq<Pairing>, side: Side): nat {
    if ps == [] then 0 else WonGames(ps[..|ps| - 1], side) + Won(ps[|ps| - 1].Games(), side)
  }

  predicate LegalSheet(ps: seq<Pairing>) {
    forall i :: 0 <= i < |ps| ==> LegalPairing(ps[i])
  }

  /**
   Main result: what is written conserves games and sets. As many games are won as lost, and as
   many sets; every decided game and every pairing of a won round is booked once on each side.
   */
  lemma ResultsConserve(results: seq<ResultRow>, ps: seq<Pairing>, roundWinners: map<int, Side>, homeTeam: int, awayTeam: int)
    requires AreResults(results, ps, roundWinners, homeTeam, awayTeam) && LegalSheet(ps)
    ensures Total(results, GamesWon) == Total(results, GamesLost) == WonGames(ps, Home) + WonGames(ps, Away)
    ensures Total(results, SetsWon) == Total(results, SetsLost) == PairingsInWonRounds(ps, roundWinners)
    ensures TotalDiff(results) == 0.0
  {
    assert forall i :: 0 <= i < |results| ==> results[i].diff == (results[i].gamesWon - results[i].gamesLost) as real by {
      hide TakesPart, TallyOf, TeamOf;
    }
    hide *;
    ColumnTotal(results, ps, roundWinners, homeTeam, awayTeam, GamesWon);
    ColumnTotal(results, ps, roundWinners, homeTeam, awayTeam, GamesLost);
    ColumnTotal(results, ps, roundWinners, homeTeam, awayTeam, SetsWon);
    ColumnTotal(results, ps, roundWinners, homeTeam, awayTeam, SetsLost);
    CountedColumns(ps, roundWinners);
    AsManyLosersAsWinners(ps);
    OneSetPerPairing(ps, roundWinners, true);
    OneSetPerPairing(ps, roundWinners, false);
    DiffIsWonLessLost(results);
    WinnersBySide(ps);
  }

  // ---- What is booked for a side ---------------------------------------------------------------

  /** A side's player, once for every game of a pairing that the given side won. */
  function SideGames(p: Pairing, gs: seq<Game>, winner: Side, side: Side): seq<int> {
    if gs == [] then []
    else SideGames(p, gs[..|gs| - 1], winner, side) + if WonBy(gs[|gs| - 1], winner) then [Player(p, side)] else []
  }

  function SideSets(p: Pairing, roundWinners: map<int, Side>, winner: Side, side: Side): seq<int> {
    if p.round in roundWinners && roundWinners[p.round] == winner then [Player(p, side)] else []
  }

  predicate IsWon(column: Column) {
    column.GamesWon? || column.SetsWon?
  }

  /** What a pairing enters in a column for one of its sides: its own wins, or the other side's as losses. */
  function PairingSide(p: Pairing, roundWinners: map<int, Side>, column: Column, side: Side): seq<int> {
    var winner := if IsWon(column) then side else side.Other();
    if column.GamesWon? || column.GamesLost? then SideGames(p, p.Games(), winner, side) else SideSets(p, roundWinners, winner, side)
  }

  function SideEntries(ps: seq<Pairing>, roundWinners: map<int, Side>, column: Column, side: Side): seq<int> {
    if ps == [] then []
    else SideEntries(ps[..|ps| - 1], roundWinners, column, side) + PairingSide(ps[|ps| - 1], roundWinners, column, side)
  }

  function PairingEntries(p: Pairing, roundWinners: map<int, Side>, column: Column): seq<int> {
    match column
    case GamesWon => GameWinners(p, p.Games())
    case GamesLost => GameLosers(p, p.Games())
    case SetsWon => SetPlayer(p, roundWinners, true)
    case SetsLost => SetPlayer(p, roundWinners, false)
  }

  lemma CountedStep(ps: seq<Pairing>, roundWinners: map<int, Side>, column: Column)
    requires ps != []
    ensures Counted(ps, roundWinners, column) ==
            Counted(ps[..|ps| - 1], roundWinners, column) + PairingEntries(ps[|ps| - 1], roundWinners, column)
  {
    hide GameWinners, GameLosers, SetPlayer;
  }

  predicate LegalGames(gs: seq<Game>) {
    forall k :: 0 <= k < |gs| ==> Legal(gs[k])
  }

  lemma {:induction false} GamesSplitBySide(p: Pairing, gs: seq<Game>, x: int)
    requires LegalGames(gs)
    ensures Count(GameWinners(p, gs), x) == Count(SideGames(p, gs, Home, Home), x) + Count(SideGames(p, gs, Away, Away), x)
    ensures Count(GameLosers(p, gs), x) == Count(SideGames(p, gs, Away, Home), x) + Count(SideGames(p, gs, Home, Away), x)
  {
    if gs != [] {
      GamesSplitBySide(p, gs[..|gs| - 1], x);
      assert Legal(gs[|gs| - 1]);
    }
  }

  lemma {:induction false} SideGamesCount(p: Pairing, gs: seq<Game>, winner: Side, side: Side)
    ensures |SideGames(p, gs, winner, side)| == Won(gs, winner)
    ensures forall x :: x in SideGames(p, gs, winner, side) ==> x == Player(p, side)
  {
    if gs != [] {
      SideGamesCount(p, gs[..|gs| - 1], winner, side);
    }
  }

  lemma PairingSplits(p: Pairing, roundWinners: map<int, Side>, column: Column, x: int)
    requires LegalPairing(p)
    ensures Count(PairingEntries(p, roundWinners, column), x) ==
            Count(PairingSide(p, roundWinners, column, Home), x) + Count(PairingSide(p, roundWinners, column, Away), x)
  {
    GamesAreLegal(p);
    GamesSplitBySide(p, p.Games(), x);
    SetsSplitBySide(p, roundWinners, x);
    hide SideGames, SideSets, SetPlayer, GameWinners, GameLosers, Count, LegalPairing, LegalGames;
  }

  lemma GamesAreLegal(p: Pairing)
    requires LegalPairing(p)
    ensures LegalGames(p.Games())
  {
    hide Legal;
  }

  lemma SetsSplitBySide(p: Pairing, roundWinners: map<int, Side>, x: int)
    ensures Count(SetPlayer(p, roundWinners, true), x) ==
            Count(SideSets(p, roundWinners, Home, Home), x) + Count(SideSets(p, roundWinners, Away, Away), x)
    ensures Count(SetPlayer(p, roundWinners, false), x) ==
            Count(SideSets(p, roundWinners, Away, Home), x) + Count(SideSets(p, roundWinners, Home, Away), x)
  {
    assert Count([], x) == 0;
  }

  lemma {:induction false} CountSplitsBySide(ps: seq<Pairing>, roundWinners: map<int, Side>, column: Column, x: int)
    requires LegalSheet(ps)
    ensures Count(Counted(ps, roundWinners, column), x) ==
            Count(SideEntries(ps, roundWinners, column, Home), x) + Count(SideEntries(ps, roundWinners, column, Away), x)
  {
    if ps != [] {
      var p, earlier := ps[|ps| - 1], ps[..|ps| - 1];
      assert LegalPairing(p);
      hide LegalPairing, PairingEntries, PairingSide, Counted, Count;
      CountSplitsBySide(earlier, roundWinners, column, x);
      CountedStep(ps, roundWinners, column);
      PairingSplits(p, roundWinners, column, x);
      CountConcat(Counted(earlier, roundWinners, column), PairingEntries(p, roundWinners, column), x);
      CountConcat(SideEntries(earlier, roundWinners, column, Home), PairingSide(p, roundWinners, column, Home), x);
      CountConcat(SideEntries(earlier, roundWinners, column, Away), PairingSide(p, roundWinners, column, Away), x);
    }
  }

  /** How many pairings lie in rounds that a side won. */
  function PairingsInRoundsOf(ps: seq<Pairing>, roundWinners: map<int, Side>, side: Side): nat {
    if ps == [] then 0
    else
      var p := ps[|ps| - 1];
      PairingsInRoundsOf(ps[..|ps| - 1], roundWinners, side) + if p.round in roundWinners && roundWinners[p.round] == side then 1 else 0
  }

  /** What the sheet says a side is due in a column. */
  function Due(ps: seq<Pairing>, roundWinners: map<int, Side>, column: Column, side: Side): nat {
    match column
    case GamesWon => WonGames(ps, side)
    case GamesLost => WonGames(ps, side.Other())
    case SetsWon => PairingsInRoundsOf(ps, roundWinners, side)
    case SetsLost => PairingsInRoundsOf(ps, roundWinners, side.Other())
  }

  lemma {:induction false} EntriesAreDue(ps: seq<Pairing>, roundWinners: map<int, Side>, column: Column, side: Side)
    ensures |SideEntries(ps, roundWinners, column, side)| == Due(ps, roundWinners, column, side)
  {
    if ps != [] {
      var p := ps[|ps| - 1];
      EntriesAreDue(ps[..|ps| - 1], roundWinners, column, side);
      SideGamesCount(p, p.Games(), if IsWon(column) then side else side.Other(), side);
      hide SideGames, Won;
    }
  }

  lemma WinnersBySide(ps: seq<Pairing>)
    requires LegalSheet(ps)
    ensures |Winners(ps)| == WonGames(ps, Home) + WonGames(ps, Away)
  {
    if ps != [] {
      var p := ps[|ps| - 1];
      WinnersBySide(ps[..|ps| - 1]);
      assert LegalPairing(p);
      WinnersOfPairing(p, p.Games());
      hide GameWinners, Won;
    }
  }

  lemma {:induction false} WinnersOfPairing(p: Pairing, gs: seq<Game>)
    requires LegalGames(gs)
    ensures |GameWinners(p, gs)| == Won(gs, Home) + Won(gs, Away)
  {
    if gs != [] {
      WinnersOfPairing(p, gs[..|gs| - 1]);
      assert Legal(gs[|gs| - 1]);
    }
  }

  // ---- Which team is credited --------------------------------------------------------------------

  /** Nobody plays for both sides. */
  predicate SidesDisjoint(ps: seq<Pairing>) {
    forall i, j :: 0 <= i < |ps| && 0 <= j < |ps| ==> ps[i].homePlayer != ps[j].awayPlayer
  }

  predicate PlaysFor(ps: seq<Pairing>, x: int, side: Side) {
    exists i :: 0 <= i < |ps| && Player(ps[i], side) == x
  }

  lemma {:induction false} EntriesPlay(ps: seq<Pairing>, roundWinners: map<int, Side>, column: Column, side: Side, x: int)
    requires x in SideEntries(ps, roundWinners, column, side)
    ensures PlaysFor(ps, x, side)
  {
    var p, earlier := ps[|ps| - 1], ps[..|ps| - 1];
    SideGamesCount(p, p.Games(), if IsWon(column) then side else side.Other(), side);
    hide SideGames;
    if x in SideEntries(earlier, roundWinners, column, side) {
      EntriesPlay(earlier, roundWinners, column, side, x);
      var i :| 0 <= i < |earlier| && Player(earlier[i], side) == x;
      assert Player(ps[i], side) == x;
    } else {
      assert Player(ps[|ps| - 1], side) == x;
    }
  }

  lemma {:induction false} TeamOfPlayer(ps: seq<Pairing>, x: int, side: Side, homeTeam: int, awayTeam: int)
    requires SidesDisjoint(ps) && PlaysFor(ps, x, side)
    ensures TeamOf(ps, x, homeTeam, awayTeam) == if side.Home? then homeTeam else awayTeam
  {
    var i :| 0 <= i < |ps| && Player(ps[i], side) == x;
    var n := |ps| - 1;
    assert side == Home ==> ps[i].homePlayer != ps[n].awayPlayer;
    assert side == Away ==> ps[n].homePlayer != ps[i].awayPlayer;
    if Player(ps[n], side) != x {
      assert Player(ps[..n][i], side) == x;
      TeamOfPlayer(ps[..n], x, side, homeTeam, awayTeam);
    }
  }

  lemma OneSideOnly(ps: seq<Pairing>, x: int, side: Side)
    requires SidesDisjoint(ps) && PlaysFor(ps, x, side)
    ensures !PlaysFor(ps, x, side.Other())
  {
    var i :| 0 <= i < |ps| && Player(ps[i], side) == x;
    forall j | 0 <= j < |ps|
      ensures Player(ps[j], side.Other()) != x
    {
      assert ps[i].homePlayer != ps[j].awayPlayer && ps[j].homePlayer != ps[i].awayPlayer;
    }
  }

  lemma CountOfMember(xs: seq<int>, x: int)
    ensures x in xs <==> Count(xs, x) > 0
  {
  }

  /** A player's entries are booked for the team of the side that made them, and no one else's are. */
  lemma BookedForSide(ps: seq<Pairing>, roundWinners: map<int, Side>, column: Column, x: int, side: Side, homeTeam: int, awayTeam: int)
    requires LegalSheet(ps) && SidesDisjoint(ps) && homeTeam != awayTeam
    ensures var team := if side.Home? then homeTeam else awayTeam;
            x in Counted(ps, roundWinners, column) ==>
              Count(SideEntries(ps, roundWinners, column, side), x) ==
              if TeamOf(ps, x, homeTeam, awayTeam) == team then Count(Counted(ps, roundWinners, column), x) else 0
    ensures x !in Counted(ps, roundWinners, column) ==>
              Count(SideEntries(ps, roundWinners, column, side), x) == 0 == Count(Counted(ps, roundWinners, column), x)
  {
    hide SideEntries, Counted, LegalSheet, TeamOf, Count, SidesDisjoint;
    CountSplitsBySide(ps, roundWinners, column, x);
    CountOfMember(Counted(ps, roundWinners, column), x);
    CountOfMember(SideEntries(ps, roundWinners, column, Home), x);
    CountOfMember(SideEntries(ps, roundWinners, column, Away), x);
    if x in SideEntries(ps, roundWinners, column, Home) {
      EntriesPlay(ps, roundWinners, column, Home, x);
      TeamOfPlayer(ps, x, Home, homeTeam, awayTeam);
      OneSideOnly(ps, x, Home);
    }
    if x in SideEntries(ps, roundWinners, column, Away) {
      EntriesPlay(ps, roundWinners, column, Away, x);
      TeamOfPlayer(ps, x, Away, homeTeam, awayTeam);
      OneSideOnly(ps, x, Away);
    }
    hide PlaysFor;
  }

  lemma {:induction false} TeamTotalIsTotalCount(results: seq<ResultRow>, team: int, column: Column, xs: seq<int>)
    requires forall i :: 0 <= i < |results| ==>
               Count(xs, results[i].player) == if results[i].team == team then Entry(results[i], column) else 0
    ensures TeamTotal(results, team, column) == TotalCount(PlayersOf(results), xs)
  {
    if results != [] {
      var n := |results| - 1;
      hide Count, Entry;
      TeamTotalIsTotalCount(results[..n], team, column, xs);
      assert PlayersOf(results)[..n] == PlayersOf(results[..n]);
    }
  }

  lemma RowEntry(results: seq<ResultRow>, ps: seq<Pairing>, roundWinners: map<int, Side>, homeTeam: int, awayTeam: int, column: Column, i: nat)
    requires AreResults(results, ps, roundWinners, homeTeam, awayTeam) && i < |results|
    ensures Entry(results[i], column) == Count(Counted(ps, roundWinners, column), results[i].player)
    ensures results[i].team == TeamOf(ps, results[i].player, homeTeam, awayTeam)
  {
    hide Winners, Losers, SetPlayers, TeamOf, Count;
  }

  /** Main result: between two teams without a common player, each is credited with exactly what its side is due. */
  lemma TeamIsCredited(results: seq<ResultRow>, ps: seq<Pairing>, roundWinners: map<int, Side>, homeTeam: int, awayTeam: int,
                       side: Side, column: Column)
    requires AreResults(results, ps, roundWinners, homeTeam, awayTeam)
    requires LegalSheet(ps) && SidesDisjoint(ps) && homeTeam != awayTeam
    ensures TeamTotal(results, if side.Home? then homeTeam else awayTeam, column) == Due(ps, roundWinners, column, side)
  {
    hide *;
    var xs := SideEntries(ps, roundWinners, column, side);
    var team := if side.Home? then homeTeam else awayTeam;
    forall i | 0 <= i < |results|
      ensures Count(xs, results[i].player) == if results[i].team == team then Entry(results[i], column) else 0
    {
      RowEntry(results, ps, roundWinners, homeTeam, awayTeam, column, i);
      BookedForSide(ps, roundWinners, column, results[i].player, side, homeTeam, awayTeam);
    }
    TeamTotalIsTotalCount(results, team, column, xs);
    forall x | x in xs
      ensures x in PlayersOf(results)
    {
      CountSplitsBySide(ps, roundWinners, column, x);
      CountOfMember(xs, x);
      CountOfMember(Counted(ps, roundWinners, column), x);
      assert side == Home || side == Away;
      CountedTakePart(results, ps, roundWinners, homeTeam, awayTeam, column, x);
    }
    DistinctResults(results, ps, roundWinners, homeTeam, awayTeam);
    CountsAddUp(PlayersOf(results), xs);
    EntriesAreDue(ps, roundWinners, column, side);
  }

  lemma CountedTakePart(results: seq<ResultRow>, ps: seq<Pairing>, roundWinners: map<int, Side>, homeTeam: int, awayTeam: int, column: Column, x: int)
    requires AreResults(results, ps, roundWinners, homeTeam, awayTeam) && x in Counted(ps, roundWinners, column)
    ensures x in PlayersOf(results)
  {
    hide Winners, Losers, SetPlayers, PlayersOf, TeamOf;
    assert TakesPart(ps, roundWinners, x);
  }

  lemma DistinctResults(results: seq<ResultRow>, ps: seq<Pairing>, roundWinners: map<int, Side>, homeTeam: int, awayTeam: int)
    requires AreResults(results, ps, roundWinners, homeTeam, awayTeam)
    ensures Distinct(PlayersOf(results))
  {
  }

  // ---- What a player is credited with --------------------------------------------------------------

  /** What a pairing is worth in a column to the player on a side. */
  function DueIn(p: Pairing, roundWinners: map<int, Side>, column: Column, side: Side): nat {
    match column
    case GamesWon => Won(p.Games(), side)
    case GamesLost => Won(p.Games(), side.Other())
    case SetsWon => if p.round in roundWinners && roundWinners[p.round] == side then 1 else 0
    case SetsLost => if p.round in roundWinners && roundWinners[p.round] == side.Other() then 1 else 0
  }

  function PlayerDueIn(p: Pairing, roundWinners: map<int, Side>, column: Column, x: int): nat {
    (if p.homePlayer == x then DueIn(p, roundWinners, column, Home) else 0) +
    if p.awayPlayer == x then DueIn(p, roundWinners, column, Away) else 0
  }

  /** What the sheet says a player is due in a column. */
  function PlayerDue(ps: seq<Pairing>, roundWinners: map<int, Side>, column: Column, x: int): nat {
    if ps == [] then 0
    else PlayerDue(ps[..|ps| - 1], roundWinners, column, x) + PlayerDueIn(ps[|ps| - 1], roundWinners, column, x)
  }

  lemma {:induction false} CountOfSame(xs: seq<int>, y: int, x: int)
    requires forall i :: 0 <= i < |xs| ==> xs[i] == y
    ensures Count(xs, x) == if x == y then |xs| else 0
  {
    CountSingle(y, x);
    hide Count;
    if xs == [] {
    } else {
      var n := |xs| - 1;
      CountOfSame(xs[..n], y, x);
      CountConcat(xs[..n], [y], x);
      assert xs == xs[..n] + [y];
    }
  }

  lemma SideIsDue(p: Pairing, roundWinners: map<int, Side>, column: Column, side: Side, x: int)
    ensures Count(PairingSide(p, roundWinners, column, side), x) ==
            if Player(p, side) == x then DueIn(p, roundWinners, column, side) else 0
  {
    SideGamesCount(p, p.Games(), if IsWon(column) then side else side.Other(), side);
    hide SideGames, Won, Count;
    var entries := PairingSide(p, roundWinners, column, side);
    forall i | 0 <= i < |entries|
      ensures entries[i] == Player(p, side)
    {
      assert entries[i] in entries;
    }
    CountOfSame(entries, Player(p, side), x);
  }

  lemma {:induction false} PlayerEntries(ps: seq<Pairing>, roundWinners: map<int, Side>, column: Column, x: int)
    ensures Count(SideEntries(ps, roundWinners, column, Home), x) + Count(SideEntries(ps, roundWinners, column, Away), x) ==
            PlayerDue(ps, roundWinners, column, x)
  {
    assert Count([], x) == 0;
    hide Count, PairingSide, DueIn;
    if ps != [] {
      var p, earlier := ps[|ps| - 1], ps[..|ps| - 1];
      PlayerEntries(earlier, roundWinners, column, x);
      SideIsDue(p, roundWinners, column, Home, x);
      SideIsDue(p, roundWinners, column, Away, x);
      CountConcat(SideEntries(earlier, roundWinners, column, Home), PairingSide(p, roundWinners, column, Home), x);
      CountConcat(SideEntries(earlier, roundWinners, column, Away), PairingSide(p, roundWinners, column, Away), x);
    }
  }

  /** Main result: every player's row holds exactly what the sheet's games and won rounds say of that player. */
  lemma PlayerIsCredited(results: seq<ResultRow>, ps: seq<Pairing>, roundWinners: map<int, Side>, homeTeam: int, awayTeam: int, i: nat)
    requires AreResults(results, ps, roundWinners, homeTeam, awayTeam) && LegalSheet(ps) && i < |results|
    ensures forall column :: Entry(results[i], column) == PlayerDue(ps, roundWinners, column, results[i].player)
    ensures results[i].diff == (results[i].gamesWon - results[i].gamesLost) as real
  {
    assert results[i].diff == (results[i].gamesWon - results[i].gamesLost) as real by {
      hide TakesPart, TallyOf, TeamOf;
    }
    hide *;
    forall column: Column
      ensures Entry(results[i], column) == PlayerDue(ps, roundWinners, column, results[i].player)
    {
      RowEntry(results, ps, roundWinners, homeTeam, awayTeam, column, i);
      CountSplitsBySide(ps, roundWinners, column, results[i].player);
      PlayerEntries(ps, roundWinners, column, results[i].player);
    }
  }

  /** The sheets that are saved are legal, so all of this holds of them. */
  lemma SavedSheetsAreLegal(stored: seq<RoundRow>, ps: seq<Pairing>, handicaps: map<int, real>)
    requires SaveRefusal(stored, ps, handicaps) == None
    ensures LegalSheet(ps)
  {
    hide LegalPairing, HasErrors;
    BlockedExactlyByIllegalGames(ps);
  }

  /** Each reason to refuse a sheet is given exactly when it is the first that holds. */
  lemma SaveRefusedExactlyWhen(stored: seq<RoundRow>, ps: seq<Pairing>, handicaps: map<int, real>)
    ensures var known := forall i :: 0 <= i < |ps| ==> ps[i].homePlayer in handicaps && ps[i].awayPlayer in handicaps;
            var ambiguous, legal := AmbiguousSheet(stored, ps), LegalSheet(ps);
            var twice := exists i, j :: 0 <= i < j < |ps| && ps[i].round == ps[j].round && ps[i].homePlayer == ps[j].homePlayer;
            var reason := SaveRefusal(stored, ps, handicaps);
            && (reason == Some(UnknownPlayer) <==> !known)
            && (reason == Some(AmbiguousSnapshot) <==> known && ambiguous)
            && (reason == Some(InvalidSheet) <==> known && !ambiguous && !legal)
            && (reason == Some(DuplicateHomePlayer) <==> known && !ambiguous && legal && twice)
  {
    hide LegalPairing, HasErrors, AmbiguousSheet;
    BlockedExactlyByIllegalGames(ps);
    assert HomeTwice(ps) <==> exists i, j :: 0 <= i < j < |ps| && ps[i].round == ps[j].round && ps[i].homePlayer == ps[j].homePlayer by {
      if i, j :| 0 <= i < j < |ps| && ps[i].round == ps[j].round && ps[i].homePlayer == ps[j].homePlayer {
        assert SameSlot(ps[i], ps[j]);
      }
    }
  }

  /** A player is booked for the side of the last pairing that names the player, and there for the away side first. */
  lemma {:induction false} BookedByLastPairing(ps: seq<Pairing>, x: int, i: nat, homeTeam: int, awayTeam: int)
    requires i < |ps| && (ps[i].homePlayer == x || ps[i].awayPlayer == x)
    requires forall j :: i < j < |ps| ==> ps[j].homePlayer != x && ps[j].awayPlayer != x
    ensures TeamOf(ps, x, homeTeam, awayTeam) == if ps[i].awayPlayer == x then awayTeam else homeTeam
  {
    if i < |ps| - 1 {
      BookedByLastPairing(ps[..|ps| - 1], x, i, homeTeam, awayTeam);
    }
  }

  // ---- From the sheet to the standings --------------------------------------------------------------

  /** What a match is worth to a team whose side won so many games against so many. */
  function LineFor(won: nat, lost: nat): Line {
    if won > lost then Line(1, 1, 0, 0, 2, won, lost)
    else if won < lost then Line(1, 0, 1, 0, 0, won, lost)
    else Line(1, 0, 0, 1, 1, won, lost)
  }

  /**
   Main result: on the results of a legal sheet between two teams without a common player, the
   match goes two to nothing to the side that won more games and is shared when they won as many,
   and each team's line in the standings shows the games its side won and lost on the sheet.
   */
  lemma StandingsFollowTheSheet(results: seq<ResultRow>, ps: seq<Pairing>, roundWinners: map<int, Side>, m: Fixture)
    requires AreResults(results, ps, roundWinners, m.home, m.away)
    requires LegalSheet(ps) && SidesDisjoint(ps) && m.home != m.away
    ensures HomeLine(m, results) == LineFor(WonGames(ps, Home), WonGames(ps, Away))
    ensures AwayLine(m, results) == LineFor(WonGames(ps, Away), WonGames(ps, Home))
  {
    TeamIsCredited(results, ps, roundWinners, m.home, m.away, Home, GamesWon);
    TeamIsCredited(results, ps, roundWinners, m.home, m.away, Home, GamesLost);
    TeamIsCredited(results, ps, roundWinners, m.home, m.away, Away, GamesWon);
    ResultsConserve(results, ps, roundWinners, m.home, m.away);
    ColumnSplits(results, m.home, GamesWon);
    ColumnSplits(results, m.home, GamesLost);
    hide TeamTotal, OtherTotal, Total, AreResults, LegalSheet, SidesDisjoint, WonGames;
  }
}
