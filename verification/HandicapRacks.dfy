/**
 What a player's racks amount to: which games count, what a game says of each of its two players,
 and that over the league the differences balance.
 */
module HandicapRacks {
  import opened Prelude
  import opened MatchRecords
  import opened HandicapRecs

  /** A game that one player won, by ten balls to at most seven. */
  predicate Counts(g: Game) {
    (g.home == 10 && 0 <= g.away <= 7) || (g.away == 10 && 0 <= g.home <= 7)
  }

  function Counted(gs: seq<Game>): seq<Game> {
    if gs == [] then []
    else Counted(gs[..|gs| - 1]) + if Counts(gs[|gs| - 1]) then [gs[|gs| - 1]] else []
  }

  /** The counted games of a stored pairing, the latest first. */
  function GamesOf(row: RoundRow): seq<Game> {
    Counted([row.pairing.game3, row.pairing.game2, row.pairing.game1])
  }

  function Balls(g: Game, side: Side): int {
    if side.Home? then g.home else g.away
  }

  function PlayerOn(row: RoundRow, side: Side): int {
    if side.Home? then row.pairing.homePlayer else row.pairing.awayPlayer
  }

  /** The handicap the opponent played under. */
  function OpponentOf(row: RoundRow, side: Side): Option<real> {
    if side.Home? then row.awayHC else row.homeHC
  }

  /** Own balls less the opponent's, against the opponent's handicap. */
  function SampleOf(g: Game, side: Side, opponent: real): Sample {
    Sample(opponent, Balls(g, side) - Balls(g, side.Other()))
  }

  function SamplesOf(gs: seq<Game>, side: Side, opponent: real): (samples: seq<Sample>)
    ensures |samples| == |gs|
  {
    seq(|gs|, i requires 0 <= i < |gs| => SampleOf(gs[i], side, opponent))
  }

  /** What a row says of the player on a side; nothing if the opponent's handicap is not on record. */
  function SideSamples(row: RoundRow, side: Side): seq<Sample> {
    var opponent := OpponentOf(row, side);
    if opponent.None? then [] else SamplesOf(GamesOf(row), side, opponent.value)
  }

  function RowSamples(row: RoundRow, player: int): seq<Sample> {
    (if PlayerOn(row, Home) == player then SideSamples(row, Home) else []) +
    if PlayerOn(row, Away) == player then SideSamples(row, Away) else []
  }

  function RackSamples(racks: seq<RoundRow>, player: int): seq<Sample> {
    if racks == [] then [] else RackSamples(racks[..|racks| - 1], player) + RowSamples(racks[|racks| - 1], player)
  }

  /** How many games of a row count for a player on a side, or of those, have no handicap on record. */
  function SideGames(row: RoundRow, player: int, side: Side, missing: bool): nat {
    if PlayerOn(row, side) != player || (missing && OpponentOf(row, side).Some?) then 0 else |GamesOf(row)|
  }

  function RackGames(racks: seq<RoundRow>, player: int, missing: bool): nat {
    if racks == [] then 0
    else
      var row := racks[|racks| - 1];
      RackGames(racks[..|racks| - 1], player, missing) + SideGames(row, player, Home, missing) + SideGames(row, player, Away, missing)
  }

  // ---- The racks collected ---------------------------------------------------------------------

  function SlotOf(g: Game, side: Side): (int, int) {
    (Balls(g, side), Balls(g, side.Other()))
  }

  function SlotsOf(gs: seq<Game>, side: Side): seq<(int, int)> {
    seq(|gs|, i requires 0 <= i < |gs| => SlotOf(gs[i], side))
  }

  /** Adding games one by one adds a sample for each that counts, or reports it as missing. */
  ghost predicate Gains(acc: Accum, acc': Accum, gs: seq<Game>, side: Side, opponent: Option<real>) {
    && acc'.eligible == acc.eligible + |Counted(gs)|
    && acc'.missing == acc.missing + (if opponent.None? then |Counted(gs)| else 0)
    && acc'.samples == acc.samples + if opponent.None? then [] else SamplesOf(Counted(gs), side, opponent.value)
  }

  lemma CountedStep(gs: seq<Game>, g: Game)
    ensures Counted(gs + [g]) == if Counts(g) then Counted(gs) + [g] else Counted(gs)
  {
    assert (gs + [g])[..|gs|] == gs;
    hide Counts;
  }

  lemma SamplesStep(gs: seq<Game>, g: Game, side: Side, opponent: real)
    ensures SamplesOf(gs + [g], side, opponent) == SamplesOf(gs, side, opponent) + [SampleOf(g, side, opponent)]
  {
    hide SampleOf;
  }

  lemma CountsIsEligible(g: Game, side: Side)
    ensures ScoreEligible(Balls(g, side), Balls(g, side.Other())) == Counts(g)
  {
  }

  lemma OneMoreGame(acc: Accum, acc': Accum, gs: seq<Game>, g: Game, side: Side, opponent: Option<real>)
    requires Gains(acc, acc', gs, side, opponent)
    ensures Gains(acc, AddSlot(acc', Balls(g, side), Balls(g, side.Other()), opponent), gs + [g], side, opponent)
  {
    CountsIsEligible(g, side);
    CountedStep(gs, g);
    if opponent.Some? {
      SamplesStep(Counted(gs), g, side, opponent.value);
    }
    hide Counts, Counted, SamplesOf, ScoreEligible, Balls;
  }

  lemma {:induction false} SlotsGain(acc: Accum, gs: seq<Game>, side: Side, opponent: Option<real>)
    ensures Gains(acc, AddSlots(acc, SlotsOf(gs, side), opponent), gs, side, opponent)
  {
    if gs != [] {
      var init, g := gs[..|gs| - 1], gs[|gs| - 1];
      SlotsGain(acc, init, side, opponent);
      OneMoreGame(acc, AddSlots(acc, SlotsOf(init, side), opponent), init, g, side, opponent);
      hide Gains, AddSlot, Counted;
      assert gs == init + [g];
      assert SlotsOf(gs, side)[..|gs| - 1] == SlotsOf(init, side);
    }
  }

  /** One row: the samples of its games for the player, in order, and every one counted or missing. */
  lemma RowGains(acc: Accum, row: RoundRow, player: int)
    ensures var acc' := AddRow(acc, row, player);
            && acc'.samples == acc.samples + RowSamples(row, player)
            && acc'.eligible == acc.eligible + SideGames(row, player, Home, false) + SideGames(row, player, Away, false)
            && acc'.missing == acc.missing + SideGames(row, player, Home, true) + SideGames(row, player, Away, true)
  {
    var gs := [row.pairing.game3, row.pairing.game2, row.pairing.game1];
    assert HomeSlots(row) == SlotsOf(gs, Home) && AwaySlots(row) == SlotsOf(gs, Away);
    var asHome := if row.pairing.homePlayer == player then AddSlots(acc, HomeSlots(row), row.awayHC) else acc;
    SlotsGain(acc, gs, Home, row.awayHC);
    SlotsGain(asHome, gs, Away, row.homeHC);
    hide AddSlots, Counted, HomeSlots, AwaySlots, SlotsOf, SamplesOf;
  }

  /**
   Main result: what is collected for a player is the samples of the player's games, row by row, with
   all games that count reported, and as missing those without the opponent's handicap.
   */
  lemma {:induction false} CollectedSamples(racks: seq<RoundRow>, player: int)
    ensures AccumOf(racks, player) ==
            Accum(RackGames(racks, player, false), RackGames(racks, player, true), RackSamples(racks, player))
  {
    if racks != [] {
      var n := |racks| - 1;
      CollectedSamples(racks[..n], player);
      RowGains(AccumOf(racks[..n], player), racks[n], player);
      hide AddRow, RowSamples, SideGames;
    }
  }

  // ---- Balls for and against -----------------------------------------------------------------

  function BallsIn(gs: seq<Game>, side: Side): int {
    if gs == [] then 0 else BallsIn(gs[..|gs| - 1], side) + Balls(gs[|gs| - 1], side)
  }

  /** The balls a player has scored in the games that count as data, or has had scored against. */
  function BallsOf(racks: seq<RoundRow>, player: int, own: bool): int {
    if racks == [] then 0
    else BallsOf(racks[..|racks| - 1], player, own) + RowBalls(racks[|racks| - 1], player, own)
  }

  function RowBalls(row: RoundRow, player: int, own: bool): int {
    SideBalls(row, player, Home, own) + SideBalls(row, player, Away, own)
  }

  function SideBalls(row: RoundRow, player: int, side: Side, own: bool): int {
    if PlayerOn(row, side) != player || OpponentOf(row, side).None? then 0
    else BallsIn(GamesOf(row), if own then side else side.Other())
  }

  lemma {:induction false} TotalDiffConcat(xs: seq<Sample>, ys: seq<Sample>)
    ensures TotalDiff(xs + ys) == TotalDiff(xs) + TotalDiff(ys)
  {
    if ys == [] {
      assert xs + ys == xs;
    } else {
      assert (xs + ys)[..|xs + ys| - 1] == xs + ys[..|ys| - 1];
      TotalDiffConcat(xs, ys[..|ys| - 1]);
    }
  }

  lemma {:induction false} TotalOfGames(gs: seq<Game>, side: Side, opponent: real)
    ensures TotalDiff(SamplesOf(gs, side, opponent)) == BallsIn(gs, side) - BallsIn(gs, side.Other())
  {
    if gs != [] {
      TotalOfGames(gs[..|gs| - 1], side, opponent);
      assert SamplesOf(gs, side, opponent)[..|gs| - 1] == SamplesOf(gs[..|gs| - 1], side, opponent);
    }
  }

  lemma TotalOfSide(row: RoundRow, player: int, side: Side)
    ensures PlayerOn(row, side) == player ==>
              TotalDiff(SideSamples(row, side)) == SideBalls(row, player, side, true) - SideBalls(row, player, side, false)
  {
    if OpponentOf(row, side).Some? {
      TotalOfGames(GamesOf(row), side, OpponentOf(row, side).value);
      hide GamesOf, BallsIn, TotalDiff;
    }
  }

  lemma TotalOfRow(row: RoundRow, player: int)
    ensures TotalDiff(RowSamples(row, player)) == RowBalls(row, player, true) - RowBalls(row, player, false)
  {
    TotalOfSide(row, player, Home);
    TotalOfSide(row, player, Away);
    var home := if PlayerOn(row, Home) == player then SideSamples(row, Home) else [];
    var away := if PlayerOn(row, Away) == player then SideSamples(row, Away) else [];
    assert TotalDiff([]) == 0;
    hide SideSamples, TotalDiff, BallsIn, GamesOf;
    TotalDiffConcat(home, away);
  }

  /** Main result: a player's differences add up to the balls scored less the balls scored against. */
  lemma {:induction false} DifferencesAreBalls(racks: seq<RoundRow>, player: int)
    ensures TotalDiff(AccumOf(racks, player).samples) == BallsOf(racks, player, true) - BallsOf(racks, player, false)
  {
    CollectedSamples(racks, player);
    hide AccumOf;
    if racks != [] {
      var n := |racks| - 1;
      DifferencesAreBalls(racks[..n], player);
      CollectedSamples(racks[..n], player);
      TotalOfRow(racks[n], player);
      TotalDiffConcat(RackSamples(racks[..n], player), RowSamples(racks[n], player));
      hide RowSamples, RowBalls, TotalDiff;
    }
  }

  /** A game says of one player the opposite of what it says of the other. */
  lemma OpponentsAreOpposite(row: RoundRow)
    requires row.homeHC.Some? && row.awayHC.Some?
    ensures |SideSamples(row, Home)| == |SideSamples(row, Away)| == |GamesOf(row)|
    ensures forall k :: 0 <= k < |GamesOf(row)| ==> SideSamples(row, Home)[k].diff == -SideSamples(row, Away)[k].diff
    ensures TotalDiff(SideSamples(row, Home)) == -TotalDiff(SideSamples(row, Away))
  {
    TotalOfGames(GamesOf(row), Home, row.awayHC.value);
    TotalOfGames(GamesOf(row), Away, row.homeHC.value);
    hide GamesOf, BallsIn, TotalDiff;
  }

  // ---- Over the league --------------------------------------------------------------------------

  /** The differences of all these players, added up. */
  function LeagueTotal(racks: seq<RoundRow>, players: seq<int>): int {
    if players == [] then 0
    else LeagueTotal(racks, players[..|players| - 1]) + TotalDiff(AccumOf(racks, players[|players| - 1]).samples)
  }

  lemma {:induction false} NoRacks(players: seq<int>)
    ensures LeagueTotal([], players) == 0
  {
    if players != [] {
      NoRacks(players[..|players| - 1]);
    }
  }

  lemma OneMoreRow(racks: seq<RoundRow>, row: RoundRow, player: int)
    ensures TotalDiff(AccumOf(racks + [row], player).samples) ==
            TotalDiff(AccumOf(racks, player).samples)
            + (if PlayerOn(row, Home) == player then TotalDiff(SideSamples(row, Home)) else 0)
            + if PlayerOn(row, Away) == player then TotalDiff(SideSamples(row, Away)) else 0
  {
    assert (racks + [row])[..|racks|] == racks;
    RowGains(AccumOf(racks, player), row, player);
    var home := if PlayerOn(row, Home) == player then SideSamples(row, Home) else [];
    var away := if PlayerOn(row, Away) == player then SideSamples(row, Away) else [];
    TotalDiffConcat(AccumOf(racks, player).samples, home + away);
    TotalDiffConcat(home, away);
    assert TotalDiff([]) == 0;
    hide SideSamples, TotalDiff, AddRow;
  }

  lemma {:induction false} LeagueGains(racks: seq<RoundRow>, row: RoundRow, players: seq<int>)
    requires Distinct(players)
    ensures LeagueTotal(racks + [row], players) ==
            LeagueTotal(racks, players)
            + (if PlayerOn(row, Home) in players then TotalDiff(SideSamples(row, Home)) else 0)
            + if PlayerOn(row, Away) in players then TotalDiff(SideSamples(row, Away)) else 0
  {
    if players != [] {
      var n := |players| - 1;
      LeagueGains(racks, row, players[..n]);
      OneMoreRow(racks, row, players[n]);
      assert players == players[..n] + [players[n]];
      hide SideSamples, TotalDiff, AccumOf;
    }
  }

  /**
   Main result: over a roster that holds everybody who played, with all handicaps on record, the
   differences add up to nothing: what one player gains the opponent loses.
   */
  lemma {:induction false} LeagueBalances(racks: seq<RoundRow>, players: seq<int>)
    requires Distinct(players)
    requires forall i :: 0 <= i < |racks| ==>
               && racks[i].homeHC.Some? && racks[i].awayHC.Some?
               && PlayerOn(racks[i], Home) in players && PlayerOn(racks[i], Away) in players
    ensures LeagueTotal(racks, players) == 0
  {
    if racks == [] {
      NoRacks(players);
    } else {
      var n := |racks| - 1;
      LeagueBalances(racks[..n], players);
      LeagueGains(racks[..n], racks[n], players);
      OpponentsAreOpposite(racks[n]);
      assert racks == racks[..n] + [racks[n]];
      hide SideSamples, TotalDiff, LeagueTotal;
    }
  }

  // ---- From racks to recommendations -------------------------------------------------------------

  /** Why a player is recommended a handicap, or why not, and which, in terms of the player's racks. */
  lemma RecommendedExactlyWhen(e: RosterEntry, racks: seq<RoundRow>, cfg: Config)
    requires cfg.window >= 1
    ensures var rec, samples := RecFor(e, AccumOf(racks, e.player), cfg), RackSamples(racks, e.player);
            var recent := Min(cfg.window, |samples|);
            && (rec.reason == NoData <==> samples == [])
            && (rec.reason == AdminHold <==> samples != [] && e.hold)
            && (rec.reason == BelowThreshold <==> samples != [] && !e.hold && recent < cfg.threshold)
            && (rec.recommended.Some? <==> samples != [] && !e.hold && recent >= cfg.threshold)
            && rec.result.lifetimeRacks == |samples| && rec.result.windowRacks == recent
            && (samples != [] ==>
                  && rec.result.lifetime == RoundHC(SumOf(samples) / |samples| as real)
                  && rec.result.window == RoundHC(SumOf(samples[..recent]) / recent as real))
            && (rec.recommended.Some? ==>
                  rec.recommended.value == var implied := rec.result.window;
                    if implied > cfg.maxHC then RoundHC(cfg.maxHC) else if implied < -cfg.maxHC then RoundHC(-cfg.maxHC) else implied)
  {
    CollectedSamples(racks, e.player);
    IncludedAreSamples(racks, e.player);
    hide AccumOf, RackSamples, SumOf, RoundHC;
  }
}
