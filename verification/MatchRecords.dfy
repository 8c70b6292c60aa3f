/** The rows a match consists of: scoresheet rounds, per-player results, and handicap spots. */
module MatchRecords {
  import opened Prelude

  /** One of the two teams of a match. */
  datatype Side = Home | Away {
    function Other(): Side {
      if Home? then Away else Home
    }
  }

  /** Balls scored in one game by the home and the away player. */
  datatype Game = Game(home: int, away: int)

  /** One pairing as submitted: three games between two players in a round. */
  datatype Pairing = Pairing(round: int, homePlayer: int, awayPlayer: int, game1: Game, game2: Game, game3: Game) {
    function Games(): (gs: seq<Game>)
      ensures |gs| == 3
    {
      [game1, game2, game3]
    }
  }

  /** The ball spot of a pairing: how many balls, and to whom (nobody when handicaps are equal). */
  datatype Spot = Spot(pts: int, to: Option<Side>)

  /** A stored pairing. The handicap snapshots are empty in rows older than the snapshot columns. */
  datatype RoundRow = RoundRow(pairing: Pairing, homeHC: Option<real>, awayHC: Option<real>, spot: Spot)

  /** A stored per-player result. */
  datatype ResultRow = ResultRow(player: int, team: int, gamesWon: int, gamesLost: int, diff: real, setsWon: int, setsLost: int)

  datatype Column = GamesWon | GamesLost | SetsWon | SetsLost

  function Entry(r: ResultRow, column: Column): int {
    match column
    case GamesWon => r.gamesWon
    case GamesLost => r.gamesLost
    case SetsWon => r.setsWon
    case SetsLost => r.setsLost
  }

  function Total(results: seq<ResultRow>, column: Column): int {
    if results == [] then 0 else Total(results[..|results| - 1], column) + Entry(results[|results| - 1], column)
  }
}
