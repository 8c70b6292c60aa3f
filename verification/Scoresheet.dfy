/**
 Scoresheet validation: which games are legal, who wins a pairing under its handicap spot, when
 a pairing may be called before all its games are played, and who wins a round.
 */
module Scoresheet {
  import opened Prelude
  import opened MatchRecords

  // ---- The handicap spot ---------------------------------------------------------------

  /** Go's math.Abs. */
  function Abs(x: real): real {
    if x < 0.0 then -x else x
  }

  /** The spot in whole balls, to the player with the lower handicap. */
  function CalcSpotM(homeHC: real, awayHC: real, multiplier: real): (spot: Spot)
    ensures multiplier >= 0.0 ==> spot.pts >= 0
  {
    Spot(RoundHalfAway(Abs(homeHC - awayHC) * multiplier),
      if homeHC < awayHC then Some(Home) else if awayHC < homeHC then Some(Away) else None)
  }

  /** The spot a pairing gives to the home side, negative when it goes to the away side. */
  function HomeSpot(spot: Spot): int {
    match spot.to
    case Some(Home) => spot.pts
    case Some(Away) => -spot.pts
    case None => 0
  }

  /**
   The spot levels the pairing: it makes up for the lead that the handicaps predict, which is the
   multiplier for every point between them, to within half a ball.
   */
  lemma SpotLevelsThePairing(homeHC: real, awayHC: real, multiplier: real)
    requires multiplier >= 0.0
    ensures var predicted := multiplier * (homeHC - awayHC);
            -0.5 <= predicted + HomeSpot(CalcSpotM(homeHC, awayHC, multiplier)) as real <= 0.5
  {
    var gap := homeHC - awayHC;
    hide RoundHalfAway;
    if gap < 0.0 {
      assert -gap * multiplier == -(multiplier * gap);
    } else if gap == 0.0 {
      assert multiplier * gap == 0.0;
    }
  }

  datatype RoundConfig = RoundConfig(multiplier: real, minBall: int)

  datatype PairingHC = PairingHC(home: real, away: real)

  /** The balls added to a side, after spots below the minimum are suppressed. */
  function SpotFor(hc: PairingHC, cfg: RoundConfig, side: Side): int {
    var spot := CalcSpotM(hc.home, hc.away, cfg.multiplier);
    if spot.to != Some(side) || (cfg.minBall > 0 && spot.pts < cfg.minBall) then 0 else spot.pts
  }

  // ---- Games -----------------------------------------------------------------------------

  function Score(g: Game, side: Side): int {
    if side.Home? then g.home else g.away
  }

  /** Exactly one player scored ten. */
  predicate Decided(g: Game) {
    (g.home == 10) != (g.away == 10)
  }

  predicate WonBy(g: Game, side: Side) {
    Decided(g) && Score(g, side) == 10
  }

  /** What a played, decided game is worth to a side. */
  function Points(g: Game, side: Side): int {
    if Decided(g) then Score(g, side) else 0
  }

  /** The rule book: scores 0 to 10, not both ten, and a loser with at most seven. */
  predicate Legal(g: Game) {
    && 0 <= g.home <= 10 && 0 <= g.away <= 10
    && !(g.home == 10 && g.away == 10)
    && (g.home == 10 ==> g.away <= 7) && (g.away == 10 ==> g.home <= 7)
  }

  function TotalPoints(gs: seq<Game>, side: Side): int {
    if gs == [] then 0 else TotalPoints(gs[..|gs| - 1], side) + Points(gs[|gs| - 1], side)
  }

  function Played(gs: seq<Game>): nat {
    if gs == [] then 0 else Played(gs[..|gs| - 1]) + if Decided(gs[|gs| - 1]) then 1 else 0
  }

  function Won(gs: seq<Game>, side: Side): nat {
    if gs == [] then 0 else Won(gs[..|gs| - 1], side) + if WonBy(gs[|gs| - 1], side) then 1 else 0
  }

  function Adjusted(p: Pairing, hc: PairingHC, cfg: RoundConfig, side: Side): int {
    TotalPoints(p.Games(), side) + SpotFor(hc, cfg, side)
  }

  /** The winner of a pairing as declared: early when out of reach, at the end by games if tied. */
  function PairingWinner(p: Pairing, hc: PairingHC, cfg: RoundConfig): Option<Side> {
    var remaining := 3 - Played(p.Games());
    var adjH, adjA := Adjusted(p, hc, cfg, Home), Adjusted(p, hc, cfg, Away);
    if Played(p.Games()) == 0 then None
    else if adjH > adjA + remaining * 10 then Some(Home)
    else if adjA > adjH + remaining * 10 then Some(Away)
    else if remaining != 0 then None
    else if Won(p.Games(), Home) > Won(p.Games(), Away) then Some(Home)
    else if Won(p.Games(), Away) > Won(p.Games(), Home) then Some(Away)
    else None
  }

  // ---- Messages --------------------------------------------------------------------------

  datatype Code = NoScores | BothWinners | ScoreRange | LoserRange | GameIncomplete | LengthMismatch

  datatype Place = Sheet | GameAt(slot: nat, game: nat) | ScoreAt(slot: nat, game: nat, side: Side)

  datatype Message = Message(isError: bool, code: Code, place: Place)

  function If(condition: bool, m: Message): seq<Message> {
    if condition then [m] else []
  }

  /** The messages of one game, in the order they are raised. */
  function GameMessages(slot: nat, n: nat, g: Game): seq<Message> {
    If(g.home < 0 || g.home > 10, Message(true, ScoreRange, ScoreAt(slot, n, Home))) +
    If(g.away < 0 || g.away > 10, Message(true, ScoreRange, ScoreAt(slot, n, Away))) +
    if g.home == 10 && g.away == 10 then [Message(true, BothWinners, GameAt(slot, n))]
    else
      If(g.home == 10 && g.away > 7, Message(true, LoserRange, ScoreAt(slot, n, Away))) +
      If(g.away == 10 && g.home > 7, Message(true, LoserRange, ScoreAt(slot, n, Home))) +
      If(g.home != 10 && g.away != 10 && (g.home > 0 || g.away > 0), Message(false, GameIncomplete, GameAt(slot, n)))
  }

  function GamesMessages(slot: nat, gs: seq<Game>): seq<Message> {
    if gs == [] then []
    else GamesMessages(slot, gs[..|gs| - 1]) + GameMessages(slot, |gs| - 1, gs[|gs| - 1])
  }

  function SlotMessages(ps: seq<Pairing>): seq<Message> {
    if ps == [] then []
    else SlotMessages(ps[..|ps| - 1]) + GamesMessages(|ps| - 1, ps[|ps| - 1].Games())
  }

  predicate HasTen(p: Pairing) {
    exists k :: 0 <= k < 3 && (p.Games()[k].home == 10 || p.Games()[k].away == 10)
  }

  predicate AnyTen(ps: seq<Pairing>) {
    exists i :: 0 <= i < |ps| && HasTen(ps[i])
  }

  function SheetMessages(ps: seq<Pairing>): seq<Message> {
    If(!AnyTen(ps), Message(false, NoScores, Sheet)) + SlotMessages(ps)
  }

  ghost predicate HasErrors(ms: seq<Message>) {
    exists k :: 0 <= k < |ms| && ms[k].isError
  }

  // ---- Rounds ------------------------------------------------------------------------------

  /** How many pairings of a round a side has won. */
  function RoundWins(ps: seq<Pairing>, winners: seq<Option<Side>>, round: int, side: Side): nat
    requires |winners| == |ps|
  {
    if ps == [] then 0
    else
      var k := |ps| - 1;
      RoundWins(ps[..k], winners[..k], round, side) + if ps[k].round == round && winners[k] == Some(side) then 1 else 0
  }

  /** Two pairings win a round; the home side is looked at first. */
  function RoundWinner(ps: seq<Pairing>, winners: seq<Option<Side>>, round: int): Option<Side>
    requires |winners| == |ps|
  {
    if RoundWins(ps, winners, round, Home) >= 2 then Some(Home)
    else if RoundWins(ps, winners, round, Away) >= 2 then Some(Away)
    else None
  }

  function PairingWinners(ps: seq<Pairing>, hcs: seq<PairingHC>, cfg: RoundConfig): (ws: seq<Option<Side>>)
    requires |hcs| == |ps|
    ensures |ws| == |ps|
  {
    seq(|ps|, i requires 0 <= i < |ps| => PairingWinner(ps[i], hcs[i], cfg))
  }

  datatype ScoresheetResult = ScoresheetResult(
    messages: seq<Message>,
    pairingWinners: seq<Option<Side>>,
    roundWinners: map<int, Side>)

  // ---- ValidateRounds --------------------------------------------------------------------------

  /** Two maps holding a counter per round, zero when absent. */
  function Counter(m: map<int, int>, round: int): int {
    if round in m then m[round] else 0
  }

  /** The checks on one game, in the order the messages are raised. */
  method CheckGame(slot: nat, n: nat, g: Game) returns (messages: seq<Message>)
    ensures messages == GameMessages(slot, n, g)
  {
    var h, a := g.home, g.away;
    messages := [];
    if h < 0 || h > 10 {
      messages := messages + [Message(true, ScoreRange, ScoreAt(slot, n, Home))];
    }
    if a < 0 || a > 10 {
      messages := messages + [Message(true, ScoreRange, ScoreAt(slot, n, Away))];
    }
    if h == 10 && a == 10 {
      messages := messages + [Message(true, BothWinners, GameAt(slot, n))];
      return;
    }
    if h == 10 && a > 7 {
      messages := messages + [Message(true, LoserRange, ScoreAt(slot, n, Away))];
    }
    if a == 10 && h > 7 {
      messages := messages + [Message(true, LoserRange, ScoreAt(slot, n, Home))];
    }
    if h != 10 && a != 10 && (h > 0 || a > 0) {
      messages := messages + [Message(false, GameIncomplete, GameAt(slot, n))];
    }
  }

  function WinnerOf(g: Game): Option<Side> {
    if WonBy(g, Home) then Some(Home) else if WonBy(g, Away) then Some(Away) else None
  }

  /** The tallies of the first n games. */
  ghost predicate Tallied(slot: nat, gs: seq<Game>, n: nat, messages: seq<Message>, rawH: int, rawA: int, played: int,
                          winners: seq<Option<Side>>)
    requires n <= |gs|
  {
    && messages == GamesMessages(slot, gs[..n])
    && rawH == TotalPoints(gs[..n], Home) && rawA == TotalPoints(gs[..n], Away) && played == Played(gs[..n])
    && |winners| == n && forall k :: 0 <= k < n ==> winners[k] == WinnerOf(gs[k])
  }

  lemma TalliedStep(slot: nat, gs: seq<Game>, n: nat, messages: seq<Message>, rawH: int, rawA: int, played: int,
                    winners: seq<Option<Side>>)
    requires n < |gs| && Tallied(slot, gs, n, messages, rawH, rawA, played, winners)
    ensures var g := gs[n];
            Tallied(slot, gs, n + 1, messages + GameMessages(slot, n, g), rawH + Points(g, Home), rawA + Points(g, Away),
                    played + if Decided(g) then 1 else 0, winners + [WinnerOf(g)])
  {
    assert gs[..n + 1][..n] == gs[..n];
    hide GameMessages;
  }

  method CheckGames(slot: nat, gs: seq<Game>)
    returns (messages: seq<Message>, rawH: int, rawA: int, played: int, winners: seq<Option<Side>>)
    ensures Tallied(slot, gs, |gs|, messages, rawH, rawA, played, winners)
  {
    messages, rawH, rawA, played, winners := [], 0, 0, 0, [];
    assert gs[..0] == [];
    for n := 0 to |gs|
      invariant Tallied(slot, gs, n, messages, rawH, rawA, played, winners)
    {
      hide Tallied, GameMessages;
      TalliedStep(slot, gs, n, messages, rawH, rawA, played, winners);
      var g := gs[n];
      var raised := CheckGame(slot, n, g);
      messages := messages + raised;
      if g.home == 10 && g.away == 10 {
        winners := winners + [None];
        continue;
      }
      if g.home == 10 || g.away == 10 {
        rawH := rawH + g.home;
        rawA := rawA + g.away;
        played := played + 1;
        winners := winners + [if g.home == 10 then Some(Home) else Some(Away)];
      } else {
        winners := winners + [None];
      }
    }
  }

  method CountWins(gs: seq<Game>, winners: seq<Option<Side>>) returns (hGames: int, aGames: int)
    requires |winners| == |gs| && forall k :: 0 <= k < |gs| ==> winners[k] == WinnerOf(gs[k])
    ensures hGames == Won(gs, Home) && aGames == Won(gs, Away)
  {
    hGames, aGames := 0, 0;
    for k := 0 to |gs|
      invariant hGames == Won(gs[..k], Home) && aGames == Won(gs[..k], Away)
    {
      assert gs[..k + 1][..k] == gs[..k];
      if winners[k] == Some(Home) {
        hGames := hGames + 1;
      } else if winners[k] == Some(Away) {
        aGames := aGames + 1;
      }
    }
    assert gs[..|gs|] == gs;
  }

  /** One slot of the sheet: its messages and its winner. */
  method CheckPairing(slot: nat, p: Pairing, hc: PairingHC, cfg: RoundConfig)
    returns (messages: seq<Message>, winner: Option<Side>)
    ensures messages == GamesMessages(slot, p.Games())
    ensures winner == PairingWinner(p, hc, cfg)
  {
    hide GamesMessages, TotalPoints, Played, Won, CalcSpotM;
    var rawH, rawA, played, gameWinners;
    messages, rawH, rawA, played, gameWinners := CheckGames(slot, p.Games());
    assert p.Games()[..3] == p.Games();
    var spot := CalcSpotM(hc.home, hc.away, cfg.multiplier);
    var spotPts := spot.pts;
    if cfg.minBall > 0 && spotPts < cfg.minBall {
      spotPts := 0;
    }
    var adjH, adjA := rawH, rawA;
    if spot.to == Some(Home) {
      adjH := adjH + spotPts;
    } else if spot.to == Some(Away) {
      adjA := adjA + spotPts;
    }
    var remaining := 3 - played;
    winner := None;
    if played > 0 {
      if adjH > adjA + remaining * 10 {
        winner := Some(Home);
      } else if adjA > adjH + remaining * 10 {
        winner := Some(Away);
      } else if remaining == 0 {
        var hGames, aGames := CountWins(p.Games(), gameWinners);
        if hGames > aGames {
          winner := Some(Home);
        } else if aGames > hGames {
          winner := Some(Away);
        }
      }
    }
  }

  method SheetHasTen(ps: seq<Pairing>) returns (found: bool)
    ensures found == AnyTen(ps)
  {
    for i := 0 to |ps|
      invariant forall j :: 0 <= j < i ==> !HasTen(ps[j])
    {
      var gs := ps[i].Games();
      for k := 0 to 3
        invariant forall j :: 0 <= j < k ==> gs[j].home != 10 && gs[j].away != 10
      {
        if gs[k].home == 10 || gs[k].away == 10 {
          assert HasTen(ps[i]);
          return true;
        }
      }
    }
    return false;
  }

  /** What the slots visited so far have put into the counters. */
  ghost predicate Counted(ps: seq<Pairing>, winners: seq<Option<Side>>, homeWins: map<int, int>, awayWins: map<int, int>, decided: set<int>) {
    && |winners| == |ps|
    && (forall round :: Counter(homeWins, round) == RoundWins(ps, winners, round, Home))
    && (forall round :: Counter(awayWins, round) == RoundWins(ps, winners, round, Away))
    && (forall round :: round !in decided ==> Counter(homeWins, round) == Counter(awayWins, round) == 0)
  }

  lemma RoundWinsStep(ps: seq<Pairing>, winners: seq<Option<Side>>, p: Pairing, winner: Option<Side>, round: int, side: Side)
    requires |winners| == |ps|
    ensures RoundWins(ps + [p], winners + [winner], round, side) ==
            RoundWins(ps, winners, round, side) + if p.round == round && winner == Some(side) then 1 else 0
  {
    assert (ps + [p])[..|ps|] == ps && (winners + [winner])[..|ps|] == winners;
  }

  /** The counters after one more slot. */
  method CountSlot(ghost ps: seq<Pairing>, ghost winners: seq<Option<Side>>, p: Pairing, winner: Option<Side>,
                   homeWins: map<int, int>, awayWins: map<int, int>, decided: set<int>)
    returns (homeWins': map<int, int>, awayWins': map<int, int>, decided': set<int>)
    requires Counted(ps, winners, homeWins, awayWins, decided)
    ensures Counted(ps + [p], winners + [winner], homeWins', awayWins', decided')
  {
    homeWins', awayWins', decided' := homeWins, awayWins, decided;
    hide RoundWins;
    assert forall round :: Counter(homeWins, round) == RoundWins(ps, winners, round, Home);
    assert forall round :: Counter(awayWins, round) == RoundWins(ps, winners, round, Away);
    if winner.Some? {
      decided' := decided + {p.round};
      if winner == Some(Home) {
        homeWins' := homeWins[p.round := Counter(homeWins, p.round) + 1];
      } else {
        assert winner == Some(Away) by {
          assert winner.value == Away;
        }
        awayWins' := awayWins[p.round := Counter(awayWins, p.round) + 1];
      }
    }
    forall round
      ensures Counter(homeWins', round) == RoundWins(ps + [p], winners + [winner], round, Home)
    {
      RoundWinsStep(ps, winners, p, winner, round, Home);
      assert Counter(homeWins', round) == Counter(homeWins, round) + if winner == Some(Home) && round == p.round then 1 else 0;
    }
    forall round
      ensures Counter(awayWins', round) == RoundWins(ps + [p], winners + [winner], round, Away)
    {
      RoundWinsStep(ps, winners, p, winner, round, Away);
      assert Counter(awayWins', round) == Counter(awayWins, round) + if winner == Some(Away) && round == p.round then 1 else 0;
    }
  }

  method CheckPairings(ps: seq<Pairing>, hcs: seq<PairingHC>, cfg: RoundConfig)
    returns (messages: seq<Message>, winners: seq<Option<Side>>,
             homeWins: map<int, int>, awayWins: map<int, int>, decided: set<int>)
    requires |hcs| == |ps|
    ensures messages == SlotMessages(ps) && winners == PairingWinners(ps, hcs, cfg)
    ensures Counted(ps, winners, homeWins, awayWins, decided)
  {
    messages, winners, homeWins, awayWins, decided := [], [], map[], map[], {};
    hide *;
    NothingCounted(ps);
    for i := 0 to |ps|
      invariant |winners| == i && forall j :: 0 <= j < i ==> winners[j] == PairingWinner(ps[j], hcs[j], cfg)
      invariant messages == SlotMessages(ps[..i])
      invariant Counted(ps[..i], winners, homeWins, awayWins, decided)
    {
      var slotMessages, winner := CheckPairing(i, ps[i], hcs[i], cfg);
      SlotMessagesStep(ps, i);
      messages := messages + slotMessages;
      homeWins, awayWins, decided := CountSlot(ps[..i], winners, ps[i], winner, homeWins, awayWins, decided);
      assert ps[..i] + [ps[i]] == ps[..i + 1];
      winners := winners + [winner];
    }
    assert ps[..|ps|] == ps;
    WinnersOfAll(ps, hcs, cfg, winners);
  }

  lemma NothingCounted(ps: seq<Pairing>)
    ensures SlotMessages(ps[..0]) == [] && Counted(ps[..0], [], map[], map[], {})
  {
  }

  lemma WinnersOfAll(ps: seq<Pairing>, hcs: seq<PairingHC>, cfg: RoundConfig, winners: seq<Option<Side>>)
    requires |hcs| == |ps| == |winners| && forall j :: 0 <= j < |ps| ==> winners[j] == PairingWinner(ps[j], hcs[j], cfg)
    ensures winners == PairingWinners(ps, hcs, cfg)
  {
    hide PairingWinner;
  }

  method ValidateRounds(ps: seq<Pairing>, hcs: seq<PairingHC>, cfg: RoundConfig) returns (res: ScoresheetResult)
    ensures |hcs| != |ps| ==>
              res == ScoresheetResult([Message(true, LengthMismatch, Sheet)], seq(|ps|, _ => None), map[])
    ensures |hcs| == |ps| ==> IsValidation(ps, hcs, cfg, res)
  {
    if |hcs| != |ps| {
      return ScoresheetResult([Message(true, LengthMismatch, Sheet)], seq(|ps|, _ => None), map[]);
    }
    var anyScore := SheetHasTen(ps);
    var messages := if anyScore then [] else [Message(false, NoScores, Sheet)];
    var slotMessages, winners, homeWins, awayWins, decided := CheckPairings(ps, hcs, cfg);
    hide SlotMessages, PairingWinner, RoundWins, HasTen;
    var roundWinners := DetermineRoundWinners(decided, homeWins, awayWins);
    res := ScoresheetResult(messages + slotMessages, winners, roundWinners);
  }

  /** The result for a sheet: its messages, its pairing winners, and the rounds that are won. */
  ghost predicate IsValidation(ps: seq<Pairing>, hcs: seq<PairingHC>, cfg: RoundConfig, res: ScoresheetResult)
    requires |hcs| == |ps|
  {
    && res.messages == SheetMessages(ps)
    && res.pairingWinners == PairingWinners(ps, hcs, cfg)
    && (forall round :: round in res.roundWinners <==> RoundWinner(ps, res.pairingWinners, round).Some?)
    && (forall round :: round in res.roundWinners ==>
          RoundWinner(ps, res.pairingWinners, round) == Some(res.roundWinners[round]))
  }

  lemma SlotMessagesStep(ps: seq<Pairing>, i: nat)
    requires i < |ps|
    ensures SlotMessages(ps[..i + 1]) == SlotMessages(ps[..i]) + GamesMessages(i, ps[i].Games())
  {
    assert ps[..i + 1][..i] == ps[..i];
  }

  /** The decided rounds are visited in no particular order. */
  method DetermineRoundWinners(decided: set<int>, homeWins: map<int, int>, awayWins: map<int, int>)
    returns (roundWinners: map<int, Side>)
    ensures forall round :: round in roundWinners <==>
              round in decided && (Counter(homeWins, round) >= 2 || Counter(awayWins, round) >= 2)
    ensures forall round :: round in roundWinners ==>
              roundWinners[round] == if Counter(homeWins, round) >= 2 then Home else Away
  {
    roundWinners := map[];
    var remaining := decided;
    while remaining != {}
      invariant remaining <= decided
      invariant forall round :: round in roundWinners <==>
                  round in decided && round !in remaining && (Counter(homeWins, round) >= 2 || Counter(awayWins, round) >= 2)
      invariant forall round :: round in roundWinners ==>
                  roundWinners[round] == if Counter(homeWins, round) >= 2 then Home else Away
      decreases remaining
    {
      ghost var _ := SomeElement(remaining);
      var round :| round in remaining;
      if Counter(homeWins, round) >= 2 {
        roundWinners := roundWinners[round := Home];
      } else if Counter(awayWins, round) >= 2 {
        roundWinners := roundWinners[round := Away];
      }
      remaining := remaining - {round};
    }
  }
}
