/**
 Saving a scoresheet: the stored rows and the per-player results are replaced by those of the
 submitted sheet, or the transaction is abandoned with the reason.
 */
module SaveRounds {
  import opened Prelude
  import opened MatchRecords
  import opened Scoresheet
  import opened Snapshots
  import opened Tallies

  datatype SaveError = UnknownPlayer | AmbiguousSnapshot | InvalidSheet | DuplicateHomePlayer

  // ---- What a sheet amounts to ---------------------------------------------------------

  /** The winner and the loser of a game; a home ten is looked at first. */
  function GameWinners(p: Pairing, gs: seq<Game>): seq<int> {
    if gs == [] then []
    else
      var g := gs[|gs| - 1];
      GameWinners(p, gs[..|gs| - 1]) + if g.home == 10 then [p.homePlayer] else if g.away == 10 then [p.awayPlayer] else []
  }

  function GameLosers(p: Pairing, gs: seq<Game>): seq<int> {
    if gs == [] then []
    else
      var g := gs[|gs| - 1];
      GameLosers(p, gs[..|gs| - 1]) + if g.home == 10 then [p.awayPlayer] else if g.away == 10 then [p.homePlayer] else []
  }

  /** The winners of all games on the sheet, one entry a game. */
  function Winners(ps: seq<Pairing>): seq<int> {
    if ps == [] then []
    else Winners(ps[..|ps| - 1]) + GameWinners(ps[|ps| - 1], ps[|ps| - 1].Games())
  }

  function Losers(ps: seq<Pairing>): seq<int> {
    if ps == [] then []
    else Losers(ps[..|ps| - 1]) + GameLosers(ps[|ps| - 1], ps[|ps| - 1].Games())
  }

  function Player(p: Pairing, side: Side): int {
    if side.Home? then p.homePlayer else p.awayPlayer
  }

  /** The side of a pairing that a won round is booked for, as a won or as a lost set. */
  function SetPlayer(p: Pairing, roundWinners: map<int, Side>, won: bool): seq<int> {
    if p.round !in roundWinners then []
    else [Player(p, if won then roundWinners[p.round] else roundWinners[p.round].Other())]
  }

  function SetPlayers(ps: seq<Pairing>, roundWinners: map<int, Side>, won: bool): seq<int> {
    if ps == [] then []
    else SetPlayers(ps[..|ps| - 1], roundWinners, won) + SetPlayer(ps[|ps| - 1], roundWinners, won)
  }

  /** The players of the won rounds on the winning side, one entry a pairing. */
  function SetWinners(ps: seq<Pairing>, roundWinners: map<int, Side>): seq<int> {
    SetPlayers(ps, roundWinners, true)
  }

  function SetLosers(ps: seq<Pairing>, roundWinners: map<int, Side>): seq<int> {
    SetPlayers(ps, roundWinners, false)
  }

  /** The team a player is booked for: the last pairing decides, and there the away side. */
  function TeamOf(ps: seq<Pairing>, player: int, homeTeam: int, awayTeam: int): int {
    if ps == [] then 0
    else if ps[|ps| - 1].awayPlayer == player then awayTeam
    else if ps[|ps| - 1].homePlayer == player then homeTeam
    else TeamOf(ps[..|ps| - 1], player, homeTeam, awayTeam)
  }

  datatype Tally = Tally(gamesWon: int, gamesLost: int, setsWon: int, setsLost: int)

  const ZERO := Tally(0, 0, 0, 0)

  function TallyOf(ps: seq<Pairing>, roundWinners: map<int, Side>, player: int): Tally {
    Tally(Count(Winners(ps), player), Count(Losers(ps), player),
      Count(SetWinners(ps, roundWinners), player), Count(SetLosers(ps, roundWinners), player))
  }

  function ResultFor(player: int, team: int, t: Tally): ResultRow {
    ResultRow(player, team, t.gamesWon, t.gamesLost, (t.gamesWon - t.gamesLost) as real, t.setsWon, t.setsLost)
  }

  /** Players with a decided game or a won round have a result. */
  predicate TakesPart(ps: seq<Pairing>, roundWinners: map<int, Side>, player: int) {
    player in Winners(ps) || player in Losers(ps) || player in SetWinners(ps, roundWinners) || player in SetLosers(ps, roundWinners)
  }

  function PlayersOf(results: seq<ResultRow>): (players: seq<int>)
    ensures |players| == |results|
  {
    seq(|results|, i requires 0 <= i < |results| => results[i].player)
  }

  /** One result for every player who takes part, in any order. */
  ghost predicate AreResults(results: seq<ResultRow>, ps: seq<Pairing>, roundWinners: map<int, Side>, homeTeam: int, awayTeam: int) {
    && Distinct(PlayersOf(results))
    && (forall player :: player in PlayersOf(results) <==> TakesPart(ps, roundWinners, player))
    && (forall i :: 0 <= i < |results| ==>
          var player := results[i].player;
          results[i] == ResultFor(player, TeamOf(ps, player, homeTeam, awayTeam), TallyOf(ps, roundWinners, player)))
  }

  /** The round winners of a sheet, as a map over the rounds that are won. */
  ghost predicate AreRoundWinners(roundWinners: map<int, Side>, ps: seq<Pairing>, hcs: seq<PairingHC>, cfg: RoundConfig)
    requires |hcs| == |ps|
  {
    && (forall round :: round in roundWinners <==> RoundWinner(ps, PairingWinners(ps, hcs, cfg), round).Some?)
    && (forall round :: round in roundWinners ==>
          RoundWinner(ps, PairingWinners(ps, hcs, cfg), round) == Some(roundWinners[round]))
  }

  predicate PlayersKnown(ps: seq<Pairing>, handicaps: map<int, real>) {
    forall i :: 0 <= i < |ps| ==> ps[i].homePlayer in handicaps && ps[i].awayPlayer in handicaps
  }

  predicate SameSlot(p: Pairing, q: Pairing) {
    p.round == q.round && p.homePlayer == q.homePlayer
  }

  /** A home player entered twice in one round, which the table's key refuses. */
  predicate HomeTwice(ps: seq<Pairing>) {
    exists i, j :: 0 <= i < j < |ps| && SameSlot(ps[i], ps[j])
  }

  predicate AmbiguousSheet(stored: seq<RoundRow>, ps: seq<Pairing>) {
    exists i :: 0 <= i < |ps| && Ambiguous(RowsIn(stored, ps[i].round), ps[i])
  }

  /** Why a save is abandoned, in the order the reasons are found. */
  ghost function SaveRefusal(stored: seq<RoundRow>, ps: seq<Pairing>, handicaps: map<int, real>): Option<SaveError> {
    if !PlayersKnown(ps, handicaps) then Some(UnknownPlayer)
    else if AmbiguousSheet(stored, ps) then Some(AmbiguousSnapshot)
    else if HasErrors(SheetMessages(ps)) then Some(InvalidSheet)
    else if HomeTwice(ps) then Some(DuplicateHomePlayer)
    else None
  }

  // ---- The tally map ---------------------------------------------------------------------

  function At(tallies: map<int, Tally>, player: int): Tally {
    if player in tallies then tallies[player] else ZERO
  }

  /** The tallies so far: what has been counted for whom. */
  ghost predicate Holds(tallies: map<int, Tally>, gw: seq<int>, gl: seq<int>, sw: seq<int>, sl: seq<int>) {
    && (forall x :: At(tallies, x) == Tally(Count(gw, x), Count(gl, x), Count(sw, x), Count(sl, x)))
    && (forall x :: x in tallies <==> x in gw || x in gl || x in sw || x in sl)
  }

  /** One game: its winner and its loser. */
  method AddGame(tallies: map<int, Tally>, winner: int, loser: int, ghost gw: seq<int>, ghost gl: seq<int>)
    returns (tallies': map<int, Tally>)
    requires Holds(tallies, gw, gl, [], [])
    ensures Holds(tallies', gw + [winner], gl + [loser], [], [])
  {
    tallies' := tallies[winner := At(tallies, winner).(gamesWon := At(tallies, winner).gamesWon + 1)];
    tallies' := tallies'[loser := At(tallies', loser).(gamesLost := At(tallies', loser).gamesLost + 1)];
  }

  method AddSet(tallies: map<int, Tally>, winner: int, loser: int, ghost gw: seq<int>, ghost gl: seq<int>,
                ghost sw: seq<int>, ghost sl: seq<int>)
    returns (tallies': map<int, Tally>)
    requires Holds(tallies, gw, gl, sw, sl)
    ensures Holds(tallies', gw, gl, sw + [winner], sl + [loser])
  {
    tallies' := tallies[winner := At(tallies, winner).(setsWon := At(tallies, winner).setsWon + 1)];
    tallies' := tallies'[loser := At(tallies', loser).(setsLost := At(tallies', loser).setsLost + 1)];
  }

  method TallyPairing(p: Pairing, tallies: map<int, Tally>, ghost gw: seq<int>, ghost gl: seq<int>)
    returns (tallies': map<int, Tally>)
    requires Holds(tallies, gw, gl, [], [])
    ensures Holds(tallies', gw + GameWinners(p, p.Games()), gl + GameLosers(p, p.Games()), [], [])
  {
    hide Holds;
    var gs := p.Games();
    tallies' := tallies;
    assert GameWinners(p, gs[..0]) == [] && GameLosers(p, gs[..0]) == [];
    assert gw + [] == gw && gl + [] == gl;
    for k := 0 to |gs|
      invariant Holds(tallies', gw + GameWinners(p, gs[..k]), gl + GameLosers(p, gs[..k]), [], [])
    {
      assert gs[..k + 1][..k] == gs[..k];
      ghost var won, lost := gw + GameWinners(p, gs[..k]), gl + GameLosers(p, gs[..k]);
      ghost var h, a := [p.homePlayer], [p.awayPlayer];
      if gs[k].home == 10 {
        assert won + h == gw + GameWinners(p, gs[..k + 1]) && lost + a == gl + GameLosers(p, gs[..k + 1]);
        tallies' := AddGame(tallies', p.homePlayer, p.awayPlayer, won, lost);
      } else if gs[k].away == 10 {
        assert won + a == gw + GameWinners(p, gs[..k + 1]) && lost + h == gl + GameLosers(p, gs[..k + 1]);
        tallies' := AddGame(tallies', p.awayPlayer, p.homePlayer, won, lost);
      } else {
        assert won == gw + GameWinners(p, gs[..k + 1]) && lost == gl + GameLosers(p, gs[..k + 1]);
      }
    }
    assert gs[..|gs|] == gs;
  }

  method TallyGames(ps: seq<Pairing>) returns (tallies: map<int, Tally>)
    ensures Holds(tallies, Winners(ps), Losers(ps), [], [])
  {
    tallies := map[];
    for i := 0 to |ps|
      invariant Holds(tallies, Winners(ps[..i]), Losers(ps[..i]), [], [])
    {
      hide Holds, GameWinners, GameLosers;
      assert ps[..i + 1][..i] == ps[..i];
      tallies := TallyPairing(ps[i], tallies, Winners(ps[..i]), Losers(ps[..i]));
    }
    assert ps[..|ps|] == ps;
  }

  /** The sets of one won round; winners and losers are added to what was counted before. */
  method TallyRound(ps: seq<Pairing>, round: int, winner: Side, tallies: map<int, Tally>,
                    ghost gw: seq<int>, ghost gl: seq<int>, ghost sw: seq<int>, ghost sl: seq<int>)
    returns (tallies': map<int, Tally>)
    requires Holds(tallies, gw, gl, sw, sl)
    ensures Holds(tallies', gw, gl, sw + SetWinners(ps, map[round := winner]), sl + SetLosers(ps, map[round := winner]))
  {
    hide Holds;
    ghost var only := map[round := winner];
    tallies' := tallies;
    assert sw + SetWinners(ps[..0], only) == sw && sl + SetLosers(ps[..0], only) == sl;
    for i := 0 to |ps|
      invariant Holds(tallies', gw, gl, sw + SetWinners(ps[..i], only), sl + SetLosers(ps[..i], only))
    {
      assert ps[..i + 1][..i] == ps[..i];
      ghost var won, lost := sw + SetWinners(ps[..i], only), sl + SetLosers(ps[..i], only);
      if ps[i].round != round {
        assert SetWinners(ps[..i + 1], only) == SetWinners(ps[..i], only) && SetLosers(ps[..i + 1], only) == SetLosers(ps[..i], only);
        continue;
      }
      assert won + [Player(ps[i], winner)] == sw + SetWinners(ps[..i + 1], only);
      assert lost + [Player(ps[i], winner.Other())] == sl + SetLosers(ps[..i + 1], only);
      if winner == Home {
        tallies' := AddSet(tallies', ps[i].homePlayer, ps[i].awayPlayer, gw, gl, won, lost);
      } else {
        tallies' := AddSet(tallies', ps[i].awayPlayer, ps[i].homePlayer, gw, gl, won, lost);
      }
    }
    assert ps[..|ps|] == ps;
  }

  /** The order in which sets are counted does not matter, only how often each player occurs. */
  lemma HoldsForSameCounts(tallies: map<int, Tally>, gw: seq<int>, gl: seq<int>, sw: seq<int>, sl: seq<int>, sw': seq<int>, sl': seq<int>)
    requires Holds(tallies, gw, gl, sw, sl)
    requires forall x :: Count(sw, x) == Count(sw', x) && Count(sl, x) == Count(sl', x)
    ensures Holds(tallies, gw, gl, sw', sl')
  {
    forall x
      ensures x in sw <==> x in sw'
      ensures x in sl <==> x in sl'
    {
      assert Count(sw, x) == Count(sw', x) && Count(sl, x) == Count(sl', x);
      assert forall xs :: x in xs <==> Count(xs, x) > 0;
    }
  }

  /** Adding one more round to the won ones adds exactly its sets. */
  lemma {:induction false} SetsOfOneMoreRound(ps: seq<Pairing>, rounds: map<int, Side>, round: int, winner: Side, won: bool, x: int)
    requires round !in rounds
    ensures Count(SetPlayers(ps, rounds[round := winner], won), x) ==
            Count(SetPlayers(ps, rounds, won) + SetPlayers(ps, map[round := winner], won), x)
  {
    hide *;
    var both, one := rounds[round := winner], map[round := winner];
    if ps == [] {
      NoSetPlayers(rounds, won, x);
      NoSetPlayers(both, won, x);
      NoSetPlayers(one, won, x);
    } else {
      var n := |ps| - 1;
      SetsOfOneMoreRound(ps[..n], rounds, round, winner, won, x);
      OneMoreSet(ps[n], rounds, round, winner, won, x);
      SetPlayersCount(ps, both, won, x);
      SetPlayersCount(ps, one, won, x);
      SetPlayersCount(ps, rounds, won, x);
      CountConcat(SetPlayers(ps[..n], rounds, won), SetPlayers(ps[..n], one, won), x);
    }
    CountConcat(SetPlayers(ps, rounds, won), SetPlayers(ps, one, won), x);
  }

  lemma NoSetPlayers(rounds: map<int, Side>, won: bool, x: int)
    ensures Count(SetPlayers([], rounds, won), x) == 0
  {
  }

  lemma OneMoreSet(p: Pairing, rounds: map<int, Side>, round: int, winner: Side, won: bool, x: int)
    requires round !in rounds
    ensures Count(SetPlayer(p, rounds[round := winner], won), x) ==
            Count(SetPlayer(p, rounds, won), x) + Count(SetPlayer(p, map[round := winner], won), x)
  {
    assert Count([], x) == 0;
    hide Count;
  }

  lemma SetPlayersCount(ps: seq<Pairing>, rounds: map<int, Side>, won: bool, x: int)
    requires ps != []
    ensures Count(SetPlayers(ps, rounds, won), x) ==
            Count(SetPlayers(ps[..|ps| - 1], rounds, won), x) + Count(SetPlayer(ps[|ps| - 1], rounds, won), x)
  {
    CountConcat(SetPlayers(ps[..|ps| - 1], rounds, won), SetPlayer(ps[|ps| - 1], rounds, won), x);
  }

  /** The won rounds are visited in no particular order. */
  method TallySets(ps: seq<Pairing>, roundWinners: map<int, Side>, tallies: map<int, Tally>, ghost gw: seq<int>, ghost gl: seq<int>)
    returns (tallies': map<int, Tally>)
    requires Holds(tallies, gw, gl, [], [])
    ensures Holds(tallies', gw, gl, SetWinners(ps, roundWinners), SetLosers(ps, roundWinners))
  {
    hide Holds, SetWinners, SetLosers;
    tallies' := tallies;
    var remaining := roundWinners.Keys;
    ghost var counted: map<int, Side> := map[];
    NoSets(ps);
    while remaining != {}
      invariant remaining <= roundWinners.Keys
      invariant forall round :: round in counted <==> round in roundWinners && round !in remaining
      invariant forall round :: round in counted ==> counted[round] == roundWinners[round]
      invariant Holds(tallies', gw, gl, SetWinners(ps, counted), SetLosers(ps, counted))
      decreases remaining
    {
      ghost var _ := SomeElement(remaining);
      var round :| round in remaining;
      var winner := roundWinners[round];
      tallies' := TallyRound(ps, round, winner, tallies', gw, gl, SetWinners(ps, counted), SetLosers(ps, counted));
      MoreSets(ps, counted, round, winner);
      HoldsForSameCounts(tallies', gw, gl,
        SetWinners(ps, counted) + SetWinners(ps, map[round := winner]), SetLosers(ps, counted) + SetLosers(ps, map[round := winner]),
        SetWinners(ps, counted[round := winner]), SetLosers(ps, counted[round := winner]));
      counted := counted[round := winner];
      remaining := remaining - {round};
    }
    forall round | round in roundWinners
      ensures round in counted && counted[round] == roundWinners[round]
    {
      assert round in roundWinners.Keys && round !in remaining;
    }
    forall round | round in counted
      ensures round in roundWinners && counted[round] == roundWinners[round]
    {
    }
    SameMap(counted, roundWinners);
  }

  lemma {:induction false} NoSets(ps: seq<Pairing>)
    ensures SetWinners(ps, map[]) == [] && SetLosers(ps, map[]) == []
  {
    if ps != [] {
      NoSets(ps[..|ps| - 1]);
    }
  }

  lemma MoreSets(ps: seq<Pairing>, rounds: map<int, Side>, round: int, winner: Side)
    requires round !in rounds
    ensures forall x :: Count(SetWinners(ps, rounds) + SetWinners(ps, map[round := winner]), x) ==
              Count(SetWinners(ps, rounds[round := winner]), x)
    ensures forall x :: Count(SetLosers(ps, rounds) + SetLosers(ps, map[round := winner]), x) ==
              Count(SetLosers(ps, rounds[round := winner]), x)
  {
    forall x
      ensures Count(SetWinners(ps, rounds) + SetWinners(ps, map[round := winner]), x) == Count(SetWinners(ps, rounds[round := winner]), x)
      ensures Count(SetLosers(ps, rounds) + SetLosers(ps, map[round := winner]), x) == Count(SetLosers(ps, rounds[round := winner]), x)
    {
      hide Count, SetPlayers;
      SetsOfOneMoreRound(ps, rounds, round, winner, true, x);
      SetsOfOneMoreRound(ps, rounds, round, winner, false, x);
    }
  }

  method BookPlayers(ps: seq<Pairing>, homeTeam: int, awayTeam: int) returns (teams: map<int, int>)
    ensures forall player :: (if player in teams then teams[player] else 0) == TeamOf(ps, player, homeTeam, awayTeam)
  {
    teams := map[];
    for i := 0 to |ps|
      invariant forall player :: (if player in teams then teams[player] else 0) == TeamOf(ps[..i], player, homeTeam, awayTeam)
    {
      assert ps[..i + 1][..i] == ps[..i];
      teams := teams[ps[i].homePlayer := homeTeam];
      teams := teams[ps[i].awayPlayer := awayTeam];
    }
    assert ps[..|ps|] == ps;
  }

  // ---- The tables of one match -------------------------------------------------------------

  /** The transaction's view of one match's rows. An abandoned transaction throws it away. */
  class MatchTables {
    var rounds: seq<RoundRow>
    var results: seq<ResultRow>
    var completed: bool

    constructor (rounds: seq<RoundRow>, results: seq<ResultRow>, completed: bool)
      ensures this.rounds == rounds && this.results == results && this.completed == completed
    {
      this.rounds, this.results, this.completed := rounds, results, completed;
    }

    /** Insert a stored pairing; the key is the round and the home player. */
    method InsertRoundResult(row: RoundRow) returns (ok: bool)
      modifies this`rounds
      ensures ok <==> forall i :: 0 <= i < |old(rounds)| ==> !SameSlot(old(rounds)[i].pairing, row.pairing)
      ensures rounds == if ok then old(rounds) + [row] else old(rounds)
    {
      for i := 0 to |rounds|
        invariant forall j :: 0 <= j < i ==> !SameSlot(rounds[j].pairing, row.pairing)
        invariant rounds == old(rounds)
      {
        if SameSlot(rounds[i].pairing, row.pairing) {
          return false;
        }
      }
      rounds := rounds + [row];
      ok := true;
    }

    method ReplaceRounds(ps: seq<Pairing>, hcs: seq<PairingHC>, cfg: RoundConfig) returns (ok: bool)
      requires |hcs| == |ps|
      modifies this`rounds
      ensures ok <==> !HomeTwice(ps)
      ensures ok ==> rounds == RowsFor(ps, hcs, cfg)
    {
      rounds := [];
      for i := 0 to |ps|
        invariant |rounds| == i && forall j :: 0 <= j < i ==> rounds[j] == RowFor(ps[j], hcs[j], cfg)
        invariant forall j, k :: 0 <= j < k < i ==> !SameSlot(ps[j], ps[k])
      {
        hide CalcSpotM;
        assert forall j :: 0 <= j < i ==> rounds[j].pairing == ps[j];
        var inserted := InsertRoundResult(RowFor(ps[i], hcs[i], cfg));
        if !inserted {
          var j :| 0 <= j < i && SameSlot(rounds[j].pairing, ps[i]);
          assert SameSlot(ps[j], ps[i]);
          return false;
        }
      }
      return true;
    }

    /** The tallied players are visited in no particular order. */
    method ReplaceResults(tallies: map<int, Tally>, teams: map<int, int>)
      modifies this`results
      ensures Distinct(PlayersOf(results))
      ensures forall player :: player in PlayersOf(results) <==> player in tallies
      ensures forall i :: 0 <= i < |results| ==>
                var player := results[i].player;
                player in tallies && results[i] == ResultFor(player, if player in teams then teams[player] else 0, tallies[player])
    {
      results := [];
      var remaining := tallies.Keys;
      while remaining != {}
        invariant remaining <= tallies.Keys
        invariant Distinct(PlayersOf(results))
        invariant forall player :: player in PlayersOf(results) <==> player in tallies && player !in remaining
        invariant forall i :: 0 <= i < |results| ==>
                    var player := results[i].player;
                    player in tallies && results[i] == ResultFor(player, if player in teams then teams[player] else 0, tallies[player])
        decreases remaining
      {
        ghost var _ := SomeElement(remaining);
        var player :| player in remaining;
        var row := ResultFor(player, if player in teams then teams[player] else 0, tallies[player]);
        PlayersOfStep(results, row);
        results := results + [row];
        remaining := remaining - {player};
      }
    }

    method DeriveResults(ps: seq<Pairing>, roundWinners: map<int, Side>, homeTeam: int, awayTeam: int)
      modifies this`results
      ensures AreResults(results, ps, roundWinners, homeTeam, awayTeam)
    {
      hide Holds;
      var tallies := TallyGames(ps);
      var teams := BookPlayers(ps, homeTeam, awayTeam);
      tallies := TallySets(ps, roundWinners, tallies, Winners(ps), Losers(ps));
      ReplaceResults(tallies, teams);
      TalliesAreResults(results, ps, roundWinners, tallies, teams, homeTeam, awayTeam);
    }

    /**
     Save a sheet. On success the stored rows carry the resolved handicaps, the results are the
     tallies of the sheet, and a match with a score is completed.
     */
    method SaveRounds(ps: seq<Pairing>, handicaps: map<int, real>, cfg: RoundConfig, homeTeam: int, awayTeam: int)
      returns (refused: Option<SaveError>, ghost roundWinners: map<int, Side>)
      modifies this
      ensures refused == SaveRefusal(old(rounds), ps, handicaps)
      ensures refused.None? ==>
                var hcs := HandicapsFor(old(rounds), ps, handicaps);
                && rounds == RowsFor(ps, hcs, cfg)
                && AreRoundWinners(roundWinners, ps, hcs, cfg)
                && AreResults(results, ps, roundWinners, homeTeam, awayTeam)
                && completed == (old(completed) || AnyTen(ps))
    {
      hide Ambiguous, SheetMessages, HasErrors, AnyTen, AreResults, RowsIn;
      roundWinners := map[];
      var current := LoadHandicaps(ps, handicaps);
      if current.None? {
        return Some(UnknownPlayer), roundWinners;
      }
      ghost var stored := rounds;
      var resolved := ResolveSlots(rounds, ps, current.value);
      if resolved.None? {
        return Some(AmbiguousSnapshot), roundWinners;
      }
      var hcs := resolved.value;
      SameHandicaps(stored, ps, current.value, handicaps);
      var validation := ValidateRounds(ps, hcs, cfg);
      roundWinners := validation.roundWinners;
      var invalid := AnyError(validation.messages);
      if invalid {
        return Some(InvalidSheet), roundWinners;
      }
      var inserted := ReplaceRounds(ps, hcs, cfg);
      if !inserted {
        return Some(DuplicateHomePlayer), roundWinners;
      }
      DeriveResults(ps, validation.roundWinners, homeTeam, awayTeam);
      var anyScored := SheetHasTen(ps);
      if anyScored {
        completed := true;
      }
      return None, roundWinners;
    }
  }

  lemma PlayersOfStep(results: seq<ResultRow>, row: ResultRow)
    ensures PlayersOf(results + [row]) == PlayersOf(results) + [row.player]
  {
  }

  lemma TalliesAreResults(results: seq<ResultRow>, ps: seq<Pairing>, roundWinners: map<int, Side>, tallies: map<int, Tally>,
                          teams: map<int, int>, homeTeam: int, awayTeam: int)
    requires Holds(tallies, Winners(ps), Losers(ps), SetWinners(ps, roundWinners), SetLosers(ps, roundWinners))
    requires forall player :: (if player in teams then teams[player] else 0) == TeamOf(ps, player, homeTeam, awayTeam)
    requires Distinct(PlayersOf(results))
    requires forall player :: player in PlayersOf(results) <==> player in tallies
    requires forall i :: 0 <= i < |results| ==>
               var player := results[i].player;
               player in tallies && results[i] == ResultFor(player, if player in teams then teams[player] else 0, tallies[player])
    ensures AreResults(results, ps, roundWinners, homeTeam, awayTeam)
  {
    hide Winners, Losers, SetWinners, SetLosers, TeamOf;
    forall i | 0 <= i < |results|
      ensures var player := results[i].player;
              results[i] == ResultFor(player, TeamOf(ps, player, homeTeam, awayTeam), TallyOf(ps, roundWinners, player))
    {
      var player := results[i].player;
      assert At(tallies, player) == TallyOf(ps, roundWinners, player);
      assert (if player in teams then teams[player] else 0) == TeamOf(ps, player, homeTeam, awayTeam);
    }
  }

  method AnyError(messages: seq<Message>) returns (found: bool)
    ensures found == HasErrors(messages)
  {
    for k := 0 to |messages|
      invariant forall j :: 0 <= j < k ==> !messages[j].isError
    {
      if messages[k].isError {
        return true;
      }
    }
    return false;
  }

  /** The current handicaps of the players on the sheet, each read once; one may be missing. */
  method LoadHandicaps(ps: seq<Pairing>, handicaps: map<int, real>) returns (current: Option<map<int, real>>)
    ensures current.Some? <==> PlayersKnown(ps, handicaps)
    ensures current.Some? ==>
              forall i :: 0 <= i < |ps| ==>
                && Current(current.value, ps[i].homePlayer) == Current(handicaps, ps[i].homePlayer)
                && Current(current.value, ps[i].awayPlayer) == Current(handicaps, ps[i].awayPlayer)
  {
    var players := {};
    for i := 0 to |ps|
      invariant forall j :: 0 <= j < i ==> ps[j].homePlayer in players && ps[j].awayPlayer in players
      invariant forall x :: x in players ==> exists j :: 0 <= j < i && (x == ps[j].homePlayer || x == ps[j].awayPlayer)
    {
      players := players + {ps[i].homePlayer, ps[i].awayPlayer};
    }
    var loaded := map[];
    var remaining := players;
    while remaining != {}
      invariant remaining <= players
      invariant forall x :: x in loaded <==> x in players && x !in remaining
      invariant forall x :: x in loaded ==> x in handicaps && loaded[x] == handicaps[x]
      decreases remaining
    {
      ghost var _ := SomeElement(remaining);
      var player :| player in remaining;
      if player !in handicaps {
        return None;
      }
      loaded := loaded[player := handicaps[player]];
      remaining := remaining - {player};
    }
    return Some(loaded);
  }

  /** Only the handicaps of the players on the sheet matter. */
  lemma SameHandicaps(stored: seq<RoundRow>, ps: seq<Pairing>, xs: map<int, real>, ys: map<int, real>)
    requires forall i :: 0 <= i < |ps| ==>
               Current(xs, ps[i].homePlayer) == Current(ys, ps[i].homePlayer) && Current(xs, ps[i].awayPlayer) == Current(ys, ps[i].awayPlayer)
    ensures HandicapsFor(stored, ps, xs) == HandicapsFor(stored, ps, ys)
  {
    hide RowsIn;
  }
}
