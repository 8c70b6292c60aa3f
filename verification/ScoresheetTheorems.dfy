/**
 What the validation rules amount to: errors are exactly illegal games, a pairing is called
 early exactly when it is out of reach, and what has been declared stays declared.
 */
module ScoresheetTheorems {
  import opened Prelude
  import opened MatchRecords
  import opened Scoresheet

  // ---- Errors are exactly illegal games ------------------------------------------------

  lemma GameErrors(slot: nat, n: nat, g: Game)
    ensures HasErrors(GameMessages(slot, n, g)) <==> !Legal(g)
  {
    var ms := GameMessages(slot, n, g);
    if !Legal(g) {
      if g.home < 0 || g.home > 10 {
        assert ms[0].isError;
      } else if g.away < 0 || g.away > 10 {
        assert ms[0].isError;
      } else {
        assert ms[0].isError;
      }
    }
  }

  lemma ErrorsConcat(xs: seq<Message>, ys: seq<Message>)
    ensures HasErrors(xs + ys) <==> HasErrors(xs) || HasErrors(ys)
  {
    if k :| 0 <= k < |xs| && xs[k].isError {
      assert (xs + ys)[k].isError;
    }
    if k :| 0 <= k < |ys| && ys[k].isError {
      assert (xs + ys)[|xs| + k].isError;
    }
    if k :| 0 <= k < |xs + ys| && (xs + ys)[k].isError {
      assert if k < |xs| then xs[k].isError else ys[k - |xs|].isError;
    }
  }

  lemma NoErrorsIn()
    ensures !HasErrors([])
  {
  }

  lemma GamesMessagesStep(slot: nat, gs: seq<Game>, g: Game)
    ensures GamesMessages(slot, gs + [g]) == GamesMessages(slot, gs) + GameMessages(slot, |gs|, g)
    ensures GamesMessages(slot, []) == []
  {
    assert (gs + [g])[..|gs|] == gs;
    hide GameMessages;
  }

  ghost predicate SomeIllegal(gs: seq<Game>) {
    exists k :: 0 <= k < |gs| && !Legal(gs[k])
  }

  lemma SomeIllegalStep(gs: seq<Game>, g: Game)
    ensures SomeIllegal(gs + [g]) <==> SomeIllegal(gs) || !Legal(g)
    ensures !SomeIllegal([])
  {
    hide Legal;
    if k :| 0 <= k < |gs| && !Legal(gs[k]) {
      assert !Legal((gs + [g])[k]);
    }
    if !Legal(g) {
      assert !Legal((gs + [g])[|gs|]);
    }
    if k :| 0 <= k < |gs + [g]| && !Legal((gs + [g])[k]) {
      assert k < |gs| ==> !Legal(gs[k]);
    }
  }

  lemma {:induction false} GamesErrors(slot: nat, gs: seq<Game>)
    ensures HasErrors(GamesMessages(slot, gs)) <==> SomeIllegal(gs)
  {
    hide *;
    if gs == [] {
      GamesMessagesStep(slot, [], Game(0, 0));
      SomeIllegalStep([], Game(0, 0));
      NoErrorsIn();
    } else {
      var init, g := gs[..|gs| - 1], gs[|gs| - 1];
      GamesErrors(slot, init);
      GameErrors(slot, |init|, g);
      GamesMessagesStep(slot, init, g);
      SomeIllegalStep(init, g);
      ErrorsConcat(GamesMessages(slot, init), GameMessages(slot, |init|, g));
      assert gs == init + [g];
    }
  }

  predicate LegalPairing(p: Pairing) {
    Legal(p.game1) && Legal(p.game2) && Legal(p.game3)
  }

  lemma PairingErrors(slot: nat, p: Pairing)
    ensures HasErrors(GamesMessages(slot, p.Games())) <==> !LegalPairing(p)
  {
    hide Legal, GamesMessages, HasErrors;
    GamesErrors(slot, p.Games());
    assert p.Games()[0] == p.game1 && p.Games()[1] == p.game2 && p.Games()[2] == p.game3;
  }

  ghost predicate SomeIllegalPairing(ps: seq<Pairing>) {
    exists i :: 0 <= i < |ps| && !LegalPairing(ps[i])
  }

  lemma SomeIllegalPairingStep(ps: seq<Pairing>, p: Pairing)
    ensures SomeIllegalPairing(ps + [p]) <==> SomeIllegalPairing(ps) || !LegalPairing(p)
    ensures !SomeIllegalPairing([])
  {
    hide LegalPairing;
    if i :| 0 <= i < |ps| && !LegalPairing(ps[i]) {
      assert !LegalPairing((ps + [p])[i]);
    }
    if !LegalPairing(p) {
      assert !LegalPairing((ps + [p])[|ps|]);
    }
    if i :| 0 <= i < |ps + [p]| && !LegalPairing((ps + [p])[i]) {
      assert i < |ps| ==> !LegalPairing(ps[i]);
    }
  }

  lemma SlotMessagesAppend(ps: seq<Pairing>, p: Pairing)
    ensures SlotMessages(ps + [p]) == SlotMessages(ps) + GamesMessages(|ps|, p.Games())
    ensures SlotMessages([]) == []
  {
    assert (ps + [p])[..|ps|] == ps;
    hide GamesMessages;
  }

  lemma {:induction false} SlotsErrors(ps: seq<Pairing>)
    ensures HasErrors(SlotMessages(ps)) <==> SomeIllegalPairing(ps)
  {
    hide *;
    if ps == [] {
      SlotMessagesAppend([], Pairing(0, 0, 0, Game(0, 0), Game(0, 0), Game(0, 0)));
      SomeIllegalPairingStep([], Pairing(0, 0, 0, Game(0, 0), Game(0, 0), Game(0, 0)));
      NoErrorsIn();
    } else {
      var init, p := ps[..|ps| - 1], ps[|ps| - 1];
      SlotsErrors(init);
      PairingErrors(|init|, p);
      SlotMessagesAppend(init, p);
      SomeIllegalPairingStep(init, p);
      ErrorsConcat(SlotMessages(init), GamesMessages(|init|, p.Games()));
      assert ps == init + [p];
    }
  }

  /** Main result: saving is blocked exactly when some game breaks the rules. */
  lemma BlockedExactlyByIllegalGames(ps: seq<Pairing>)
    ensures HasErrors(SheetMessages(ps)) <==> exists i :: 0 <= i < |ps| && !LegalPairing(ps[i])
  {
    hide SlotMessages, LegalPairing, AnyTen;
    SlotsErrors(ps);
    ErrorsConcat(If(!AnyTen(ps), Message(false, NoScores, Sheet)), SlotMessages(ps));
  }

  // ---- Which messages are raised ----------------------------------------------------------

  /** The message is one that a game with these scores calls for, at this place on the sheet. */
  predicate CalledFor(m: Message, slot: nat, n: nat, g: Game) {
    match m.code
    case ScoreRange =>
      m.isError && ((m.place == ScoreAt(slot, n, Home) && !(0 <= g.home <= 10)) || (m.place == ScoreAt(slot, n, Away) && !(0 <= g.away <= 10)))
    case BothWinners => m.isError && m.place == GameAt(slot, n) && g == Game(10, 10)
    case LoserRange =>
      && m.isError && g != Game(10, 10)
      && ((m.place == ScoreAt(slot, n, Away) && g.home == 10 && g.away > 7) || (m.place == ScoreAt(slot, n, Home) && g.away == 10 && g.home > 7))
    case GameIncomplete =>
      !m.isError && m.place == GameAt(slot, n) && g.home != 10 && g.away != 10 && (g.home > 0 || g.away > 0)
    case _ => false
  }

  lemma GameMessagesTell(m: Message, slot: nat, n: nat, g: Game)
    ensures m in GameMessages(slot, n, g) <==> CalledFor(m, slot, n, g)
  {
  }

  ghost predicate CalledForIn(m: Message, slot: nat, gs: seq<Game>) {
    exists n :: 0 <= n < |gs| && CalledFor(m, slot, n, gs[n])
  }

  lemma {:induction false} GamesMessagesTell(m: Message, slot: nat, gs: seq<Game>)
    ensures m in GamesMessages(slot, gs) <==> CalledForIn(m, slot, gs)
  {
    hide GameMessages, CalledFor;
    if gs != [] {
      var init, g := gs[..|gs| - 1], gs[|gs| - 1];
      GamesMessagesTell(m, slot, init);
      GameMessagesTell(m, slot, |init|, g);
      assert CalledForIn(m, slot, gs) <==> CalledForIn(m, slot, init) || CalledFor(m, slot, |init|, g) by {
        assert forall n :: 0 <= n < |init| ==> init[n] == gs[n];
      }
    }
  }

  ghost predicate CalledForOn(m: Message, ps: seq<Pairing>) {
    exists i :: 0 <= i < |ps| && CalledForIn(m, i, ps[i].Games())
  }

  lemma {:induction false} SlotMessagesTell(m: Message, ps: seq<Pairing>)
    ensures m in SlotMessages(ps) <==> CalledForOn(m, ps)
  {
    hide GamesMessages, CalledForIn;
    if ps != [] {
      var init, p := ps[..|ps| - 1], ps[|ps| - 1];
      SlotMessagesTell(m, init);
      GamesMessagesTell(m, |init|, p.Games());
      assert CalledForOn(m, ps) <==> CalledForOn(m, init) || CalledForIn(m, |init|, p.Games()) by {
        assert forall i :: 0 <= i < |init| ==> init[i] == ps[i];
      }
    }
  }

  /**
   Main result: a message is raised exactly when some game on the sheet calls for it, at its own
   place; and one more, a warning, exactly when no score on the sheet is ten.
   */
  lemma MessagesExactlyWhen(m: Message, ps: seq<Pairing>)
    ensures m in SheetMessages(ps) <==>
            || CalledForOn(m, ps)
            || (m == Message(false, NoScores, Sheet)
                && forall i :: 0 <= i < |ps| ==> forall k :: 0 <= k < 3 ==> ps[i].Games()[k].home != 10 && ps[i].Games()[k].away != 10)
  {
    SlotMessagesTell(m, ps);
    hide SlotMessages, CalledForOn;
    if !AnyTen(ps) {
      forall i, k | 0 <= i < |ps| && 0 <= k < 3
        ensures ps[i].Games()[k].home != 10 && ps[i].Games()[k].away != 10
      {
        assert !HasTen(ps[i]);
      }
    }
  }

  // ---- Finishing a pairing ---------------------------------------------------------------

  /** q goes on from p: decided games stand, and every further decided game is a legal one. */
  predicate GoesOn(g: Game, h: Game) {
    if Decided(g) then h == g else Decided(h) ==> Legal(h)
  }

  predicate Extends(p: Pairing, q: Pairing) {
    && q.round == p.round && q.homePlayer == p.homePlayer && q.awayPlayer == p.awayPlayer
    && GoesOn(p.game1, q.game1) && GoesOn(p.game2, q.game2) && GoesOn(p.game3, q.game3)
  }

  /** q finishes p: it goes on from p and all its games are decided. */
  predicate Finishes(p: Pairing, q: Pairing) {
    Extends(p, q) && Decided(q.game1) && Decided(q.game2) && Decided(q.game3)
  }

  lemma TotalsStep(gs: seq<Game>, g: Game, side: Side)
    ensures Played(gs + [g]) == Played(gs) + One(g)
    ensures TotalPoints(gs + [g], side) == TotalPoints(gs, side) + Points(g, side)
    ensures Won(gs + [g], side) == Won(gs, side) + Wins(g, side)
  {
    assert (gs + [g])[..|gs|] == gs;
  }

  /** The totals of a pairing are sums over its three games. */
  lemma ThreeGamesOf(p: Pairing, side: Side)
    ensures Played(p.Games()) == One(p.game1) + One(p.game2) + One(p.game3)
    ensures TotalPoints(p.Games(), side) == Points(p.game1, side) + Points(p.game2, side) + Points(p.game3, side)
    ensures Won(p.Games(), side) == Wins(p.game1, side) + Wins(p.game2, side) + Wins(p.game3, side)
  {
    assert Played([]) == 0 && TotalPoints([], side) == 0 && Won([], side) == 0;
    hide Played, TotalPoints, Won, Points, One, Wins;
    TotalsStep([], p.game1, side);
    TotalsStep([p.game1], p.game2, side);
    TotalsStep([p.game1, p.game2], p.game3, side);
    assert [] + [p.game1] == [p.game1];
    assert [p.game1] + [p.game2] == [p.game1, p.game2];
    assert [p.game1, p.game2] + [p.game3] == p.Games();
  }

  lemma ThreeGames(p: Pairing)
    ensures Played(p.Games()) == One(p.game1) + One(p.game2) + One(p.game3)
    ensures forall side :: TotalPoints(p.Games(), side) ==
              Points(p.game1, side) + Points(p.game2, side) + Points(p.game3, side)
    ensures forall side :: Won(p.Games(), side) == Wins(p.game1, side) + Wins(p.game2, side) + Wins(p.game3, side)
  {
    hide *;
    ThreeGamesOf(p, Home);
    forall side: Side
      ensures TotalPoints(p.Games(), side) == Points(p.game1, side) + Points(p.game2, side) + Points(p.game3, side)
      ensures Won(p.Games(), side) == Wins(p.game1, side) + Wins(p.game2, side) + Wins(p.game3, side)
    {
      ThreeGamesOf(p, side);
    }
  }

  function One(g: Game): nat {
    if Decided(g) then 1 else 0
  }

  function Wins(g: Game, side: Side): nat {
    if WonBy(g, side) then 1 else 0
  }

  /** Going on adds at most ten points a game to the other side, and takes none away. */
  lemma PointsGoOn(p: Pairing, q: Pairing, side: Side)
    requires Extends(p, q)
    ensures var more := Played(q.Games()) - Played(p.Games());
            && 0 <= more
            && TotalPoints(p.Games(), side) <= TotalPoints(q.Games(), side) <= TotalPoints(p.Games(), side) + 10 * more
  {
    ThreeGames(p);
    ThreeGames(q);
    hide TotalPoints, Played, Won;
    assert forall g, h :: GoesOn(g, h) ==> One(g) <= One(h);
    assert forall g, h :: GoesOn(g, h) ==> Points(g, side) <= Points(h, side) <= Points(g, side) + 10 * (One(h) - One(g));
  }

  /**
   Main result: a declared pairing winner is final. However the pairing goes on, over some or
   all of its remaining games, the same winner is declared.
   */
  lemma DeclaredWinnerIsFinal(p: Pairing, q: Pairing, hc: PairingHC, cfg: RoundConfig)
    requires Extends(p, q) && PairingWinner(p, hc, cfg).Some?
    ensures PairingWinner(q, hc, cfg) == PairingWinner(p, hc, cfg)
  {
    PointsGoOn(p, q, Home);
    PointsGoOn(p, q, Away);
    if Played(p.Games()) == 3 {
      AllPlayedIsFinished(p, q);
    }
    ThreeGames(q);
    assert Played(q.Games()) <= 3;
    hide TotalPoints, Played, Won, SpotFor, Extends, WonBy, Points;
  }

  lemma AllPlayedIsFinished(p: Pairing, q: Pairing)
    requires Extends(p, q) && Played(p.Games()) == 3
    ensures q.Games() == p.Games()
  {
    ThreeGames(p);
    hide TotalPoints, Played, Won;
  }

  // ---- What the handicaps do -------------------------------------------------------------

  /** The balls that being lower by a gap in handicaps is worth, to the nearest ball. */
  function Worth(gap: real, multiplier: real): int {
    RoundHalfAway(multiplier * gap)
  }

  /** What the handicaps add to the home side: the worth of the gap, or nothing if that is below the minimum. */
  function SpotToHome(hc: PairingHC, cfg: RoundConfig): int {
    var gap := hc.away - hc.home;
    if cfg.minBall > 0 && Worth(Abs(gap), cfg.multiplier) < cfg.minBall then 0 else Worth(gap, cfg.multiplier)
  }

  lemma WorthNegated(gap: real, multiplier: real)
    ensures Worth(-gap, multiplier) == -Worth(gap, multiplier)
  {
    MulNegated(multiplier, gap);
    RoundingNegated(multiplier * gap);
    hide RoundHalfAway;
  }

  lemma WorthMonotone(x: real, y: real, multiplier: real)
    requires multiplier >= 0.0 && x <= y
    ensures Worth(x, multiplier) <= Worth(y, multiplier)
  {
    MulGrows(multiplier, x, y);
    RoundingMonotone(multiplier * x, multiplier * y);
    hide RoundHalfAway;
  }

  lemma NoWorth(multiplier: real)
    ensures Worth(0.0, multiplier) == 0
  {
    WorthNegated(0.0, multiplier);
    assert -0.0 == 0.0;
    hide Worth;
  }

  /** With a multiplier that is not negative, the worth of a gap is that of its amount, either way. */
  lemma WorthByAmount(gap: real, multiplier: real)
    requires multiplier >= 0.0
    ensures Worth(Abs(gap), multiplier) >= 0
    ensures Worth(gap, multiplier) == if gap < 0.0 then -Worth(Abs(gap), multiplier) else Worth(Abs(gap), multiplier)
  {
    NoWorth(multiplier);
    WorthMonotone(0.0, Abs(gap), multiplier);
    WorthNegated(gap, multiplier);
    hide Worth;
  }

  lemma SpotPoints(home: real, away: real, multiplier: real)
    ensures CalcSpotM(home, away, multiplier).pts == Worth(Abs(away - home), multiplier)
  {
    assert Abs(home - away) == Abs(away - home);
    MulCommutes(Abs(home - away), multiplier);
    hide RoundHalfAway, Abs;
  }

  lemma SpotWorth(home: real, away: real, multiplier: real)
    ensures HomeSpot(CalcSpotM(home, away, multiplier)) == Worth(away - home, multiplier)
  {
    SpotPoints(home, away, multiplier);
    WorthNegated(away - home, multiplier);
    NoWorth(multiplier);
    hide Worth, RoundHalfAway;
  }

  lemma SpotsAreSpotToHome(hc: PairingHC, cfg: RoundConfig)
    ensures SpotFor(hc, cfg, Home) - SpotFor(hc, cfg, Away) == SpotToHome(hc, cfg)
  {
    SpotPoints(hc.home, hc.away, cfg.multiplier);
    SpotWorth(hc.home, hc.away, cfg.multiplier);
    hide Worth, CalcSpotM, Abs;
  }

  /** The home side's lead over the away side: points in decided games, and the spot. */
  lemma AdjustedLead(p: Pairing, hc: PairingHC, cfg: RoundConfig)
    ensures Adjusted(p, hc, cfg, Home) - Adjusted(p, hc, cfg, Away) ==
            TotalPoints(p.Games(), Home) - TotalPoints(p.Games(), Away) + SpotToHome(hc, cfg)
  {
    SpotsAreSpotToHome(hc, cfg);
    hide SpotFor, SpotToHome, TotalPoints;
  }

  predicate PlayedOut(p: Pairing) {
    Decided(p.game1) && Decided(p.game2) && Decided(p.game3)
  }

  /** The home side's lead in a pairing that is played out: all its balls less the opponent's, and the spot. */
  function HomeLead(p: Pairing, hc: PairingHC, cfg: RoundConfig): int {
    p.game1.home + p.game2.home + p.game3.home - (p.game1.away + p.game2.away + p.game3.away) + SpotToHome(hc, cfg)
  }

  function Lead(p: Pairing, hc: PairingHC, cfg: RoundConfig, side: Side): int {
    if side.Home? then HomeLead(p, hc, cfg) else -HomeLead(p, hc, cfg)
  }

  lemma PlayedOutLead(p: Pairing, hc: PairingHC, cfg: RoundConfig)
    requires PlayedOut(p)
    ensures Played(p.Games()) == 3
    ensures Adjusted(p, hc, cfg, Home) - Adjusted(p, hc, cfg, Away) == HomeLead(p, hc, cfg)
  {
    AdjustedLead(p, hc, cfg);
    ThreeGames(p);
    hide TotalPoints, Played, Won, Adjusted, SpotToHome;
  }

  /**
   Main result: a pairing played out goes to the side that leads in balls with the spot added to
   them and, when they are level, to the side that won two of the three games.
   */
  lemma PlayedOutHasWinner(p: Pairing, hc: PairingHC, cfg: RoundConfig)
    requires PlayedOut(p)
    ensures PairingWinner(p, hc, cfg) ==
            var lead := HomeLead(p, hc, cfg);
            if lead > 0 then Some(Home) else if lead < 0 then Some(Away)
            else if p.game1.home == 10 == p.game2.home || p.game1.home == 10 == p.game3.home || p.game2.home == 10 == p.game3.home
            then Some(Home) else Some(Away)
  {
    PlayedOutLead(p, hc, cfg);
    ThreeGames(p);
    hide TotalPoints, Played, Adjusted, HomeLead, Won;
  }

  lemma SpotMonotone(hc: PairingHC, better: PairingHC, cfg: RoundConfig)
    requires cfg.multiplier >= 0.0 && better.home <= hc.home && better.away >= hc.away
    ensures SpotToHome(hc, cfg) <= SpotToHome(better, cfg)
  {
    WorthMonotone(hc.away - hc.home, better.away - better.home, cfg.multiplier);
    WorthByAmount(hc.away - hc.home, cfg.multiplier);
    WorthByAmount(better.away - better.home, cfg.multiplier);
    hide Worth, Abs;
  }

  /**
   Main result: a lower handicap never costs a side a pairing, and neither does a higher one of the
   opponent, whatever games are played and whatever the minimum.
   */
  lemma LowerHandicapKeepsTheWin(p: Pairing, hc: PairingHC, other: PairingHC, cfg: RoundConfig, side: Side)
    requires cfg.multiplier >= 0.0 && PairingWinner(p, hc, cfg) == Some(side)
    requires side.Home? ==> other.home <= hc.home && other.away >= hc.away
    requires side.Away? ==> other.away <= hc.away && other.home >= hc.home
    ensures PairingWinner(p, other, cfg) == Some(side)
  {
    if side.Home? {
      SpotMonotone(hc, other, cfg);
    } else {
      SpotMonotone(other, hc, cfg);
    }
    AdjustedLead(p, hc, cfg);
    AdjustedLead(p, other, cfg);
    AtMostThree(p);
    hide Adjusted, SpotToHome, TotalPoints, Played, Won;
  }

  lemma AtMostThree(p: Pairing)
    ensures Played(p.Games()) <= 3
  {
    ThreeGames(p);
    hide Played, TotalPoints, Won;
  }

  /** The pairing as seen from the other side of the table. */
  function Turned(g: Game): Game {
    Game(g.away, g.home)
  }

  function TurnedPairing(p: Pairing): Pairing {
    Pairing(p.round, p.awayPlayer, p.homePlayer, Turned(p.game1), Turned(p.game2), Turned(p.game3))
  }

  /** Main result: who is at home makes no difference to who wins a pairing. */
  lemma SidesAreAlike(p: Pairing, hc: PairingHC, cfg: RoundConfig)
    ensures PairingWinner(TurnedPairing(p), PairingHC(hc.away, hc.home), cfg) ==
            match PairingWinner(p, hc, cfg) case Some(side) => Some(side.Other()) case None => None
  {
    var q, ch := TurnedPairing(p), PairingHC(hc.away, hc.home);
    ThreeGames(p);
    ThreeGames(q);
    AdjustedLead(p, hc, cfg);
    AdjustedLead(q, ch, cfg);
    SpotTurned(hc, cfg);
    AtMostThree(p);
    GameTurned(p.game1);
    GameTurned(p.game2);
    GameTurned(p.game3);
    hide Adjusted, SpotToHome, TotalPoints, Played, Won, Points, One, Wins;
  }

  lemma GameTurned(g: Game)
    ensures One(Turned(g)) == One(g)
    ensures Points(Turned(g), Home) == Points(g, Away) && Points(Turned(g), Away) == Points(g, Home)
    ensures Wins(Turned(g), Home) == Wins(g, Away) && Wins(Turned(g), Away) == Wins(g, Home)
  {
  }

  lemma SpotTurned(hc: PairingHC, cfg: RoundConfig)
    ensures SpotToHome(PairingHC(hc.away, hc.home), cfg) == -SpotToHome(hc, cfg)
  {
    var gap := hc.away - hc.home;
    assert hc.home - hc.away == -gap && Abs(-gap) == Abs(gap);
    WorthNegated(gap, cfg.multiplier);
    hide Worth, Abs;
  }

  /** A handicap alone wins nothing. */
  lemma UnplayedHasNoWinner(p: Pairing, hc: PairingHC, cfg: RoundConfig)
    requires forall k :: 0 <= k < 3 ==> !Decided(p.Games()[k])
    ensures PairingWinner(p, hc, cfg) == None
  {
    ThreeGames(p);
    assert !Decided(p.Games()[0]) && !Decided(p.Games()[1]) && !Decided(p.Games()[2]);
    hide TotalPoints, Played, Won, SpotFor;
  }

  /** A finish in which one side wins every game still open, ten to nothing. */
  function Sweep(g: Game, side: Side): Game {
    if Decided(g) then g else if side.Home? then Game(10, 0) else Game(0, 10)
  }

  function SweptBy(p: Pairing, side: Side): Pairing {
    p.(game1 := Sweep(p.game1, side), game2 := Sweep(p.game2, side), game3 := Sweep(p.game3, side))
  }

  lemma SweepPoints(p: Pairing, side: Side)
    ensures Finishes(p, SweptBy(p, side))
    ensures TotalPoints(SweptBy(p, side).Games(), side) == TotalPoints(p.Games(), side) + 10 * (3 - Played(p.Games()))
    ensures TotalPoints(SweptBy(p, side).Games(), side.Other()) == TotalPoints(p.Games(), side.Other())
  {
    ThreeGames(p);
    ThreeGames(SweptBy(p, side));
    hide TotalPoints, Played, Won;
    assert forall g :: Points(Sweep(g, side), side) == Points(g, side) + 10 * (1 - One(g));
    assert forall g :: Points(Sweep(g, side), side.Other()) == Points(g, side.Other());
  }

  /**
   Main result: with games played and games to come, a side is declared the winner exactly when
   it leads, spot included, in every legal finish.
   */
  lemma CalledExactlyWhenOutOfReach(p: Pairing, hc: PairingHC, cfg: RoundConfig, side: Side)
    requires 0 < Played(p.Games()) < 3
    ensures PairingWinner(p, hc, cfg) == Some(side) <==>
            forall q :: Finishes(p, q) ==> Lead(q, hc, cfg, side) > 0
  {
    if PairingWinner(p, hc, cfg) == Some(side) {
      forall q | Finishes(p, q)
        ensures Lead(q, hc, cfg, side) > 0
      {
        FinishedIsPlayedOut(p, q);
        PlayedOutLead(q, hc, cfg);
        PointsGoOn(p, q, side);
        PointsGoOn(p, q, side.Other());
        hide TotalPoints, Played, Won, SpotFor, Finishes, HomeLead;
      }
    } else {
      var q := SweptBy(p, side.Other());
      SweepPoints(p, side.Other());
      FinishedIsPlayedOut(p, q);
      PlayedOutLead(q, hc, cfg);
      hide TotalPoints, Played, Won, SpotFor, Finishes, SweptBy, HomeLead;
      assert side.Other().Other() == side;
      assert Finishes(p, q) && Lead(q, hc, cfg, side) <= 0;
    }
  }

  lemma FinishedIsPlayedOut(p: Pairing, q: Pairing)
    requires Finishes(p, q)
    ensures PlayedOut(q) && Played(q.Games()) == 3
  {
    ThreeGames(q);
  }

  // ---- Rounds ------------------------------------------------------------------------------

  /** A sheet goes on from another, slot by slot, with the same handicaps. */
  predicate SheetExtends(ps: seq<Pairing>, qs: seq<Pairing>) {
    |ps| == |qs| && forall i :: 0 <= i < |ps| ==> Extends(ps[i], qs[i])
  }

  /** Declared winners are kept, and others may come. */
  predicate WinnersGrow(vs: seq<Option<Side>>, ws: seq<Option<Side>>) {
    |vs| == |ws| && forall i :: 0 <= i < |vs| && vs[i].Some? ==> ws[i] == vs[i]
  }

  predicate SameRounds(ps: seq<Pairing>, qs: seq<Pairing>) {
    |ps| == |qs| && forall i :: 0 <= i < |ps| ==> ps[i].round == qs[i].round
  }

  function PairingsIn(ps: seq<Pairing>, round: int): nat {
    if ps == [] then 0
    else PairingsIn(ps[..|ps| - 1], round) + if ps[|ps| - 1].round == round then 1 else 0
  }

  /** Every pairing a side has won in the one sheet it has won in the other. */
  predicate SideGrows(vs: seq<Option<Side>>, ws: seq<Option<Side>>, side: Side) {
    |vs| == |ws| && forall i :: 0 <= i < |vs| && vs[i] == Some(side) ==> ws[i] == Some(side)
  }

  lemma {:induction false} RoundWinsGrow(ps: seq<Pairing>, qs: seq<Pairing>, vs: seq<Option<Side>>, ws: seq<Option<Side>>,
                                         round: int, side: Side)
    requires SameRounds(ps, qs) && SideGrows(vs, ws, side) && |vs| == |ps|
    ensures RoundWins(ps, vs, round, side) <= RoundWins(qs, ws, round, side)
  {
    if ps != [] {
      var k := |ps| - 1;
      RoundWinsGrow(ps[..k], qs[..k], vs[..k], ws[..k], round, side);
    }
  }

  lemma {:induction false} WinsWithinRound(ps: seq<Pairing>, ws: seq<Option<Side>>, round: int)
    requires |ws| == |ps|
    ensures RoundWins(ps, ws, round, Home) + RoundWins(ps, ws, round, Away) <= PairingsIn(ps, round)
  {
    if ps != [] {
      var k := |ps| - 1;
      WinsWithinRound(ps[..k], ws[..k], round);
    }
  }

  lemma {:induction false} PairingsInSame(ps: seq<Pairing>, qs: seq<Pairing>, round: int)
    requires SameRounds(ps, qs)
    ensures PairingsIn(ps, round) == PairingsIn(qs, round)
  {
    if ps != [] {
      PairingsInSame(ps[..|ps| - 1], qs[..|qs| - 1], round);
    }
  }

  lemma WinnersFollow(ps: seq<Pairing>, qs: seq<Pairing>, hcs: seq<PairingHC>, cfg: RoundConfig)
    requires SheetExtends(ps, qs) && |hcs| == |ps|
    ensures WinnersGrow(PairingWinners(ps, hcs, cfg), PairingWinners(qs, hcs, cfg)) && SameRounds(ps, qs)
  {
    hide PairingWinner;
    forall i | 0 <= i < |ps| && PairingWinner(ps[i], hcs[i], cfg).Some?
      ensures PairingWinner(qs[i], hcs[i], cfg) == PairingWinner(ps[i], hcs[i], cfg)
    {
      DeclaredWinnerIsFinal(ps[i], qs[i], hcs[i], cfg);
    }
    forall i | 0 <= i < |ps|
      ensures ps[i].round == qs[i].round
    {
      assert Extends(ps[i], qs[i]);
    }
  }

  /**
   Main result: a round declared for the home side is final whatever its size, and one declared
   for the away side is final in rounds of at most three pairings, the size a round has.
   */
  lemma {:induction false} RoundWinnerIsFinal(ps: seq<Pairing>, qs: seq<Pairing>, hcs: seq<PairingHC>, cfg: RoundConfig, round: int)
    requires SheetExtends(ps, qs) && |hcs| == |ps| == |qs|
    requires RoundWinner(ps, PairingWinners(ps, hcs, cfg), round).Some?
    requires RoundWinner(ps, PairingWinners(ps, hcs, cfg), round) == Some(Home) || PairingsIn(ps, round) <= 3
    ensures RoundWinner(qs, PairingWinners(qs, hcs, cfg), round) == RoundWinner(ps, PairingWinners(ps, hcs, cfg), round)
  {
    hide PairingWinners, SheetExtends, RoundWins;
    var vs, ws := PairingWinners(ps, hcs, cfg), PairingWinners(qs, hcs, cfg);
    WinnersFollow(ps, qs, hcs, cfg);
    RoundWinsGrow(ps, qs, vs, ws, round, Home);
    RoundWinsGrow(ps, qs, vs, ws, round, Away);
    WinsWithinRound(qs, ws, round);
    PairingsInSame(ps, qs, round);
  }

  // ---- Larger rounds ---------------------------------------------------------------------------------

  /** Sweeping the open games is a side's best finish: if any continuation wins, this one does. */
  lemma SweepIsBest(p: Pairing, q: Pairing, hc: PairingHC, cfg: RoundConfig, side: Side)
    requires Extends(p, q) && PairingWinner(q, hc, cfg) == Some(side)
    ensures PairingWinner(SweptBy(p, side), hc, cfg) == Some(side)
  {
    var r, s := SweptBy(q, side), SweptBy(p, side);
    SweepPoints(q, side);
    DeclaredWinnerIsFinal(q, r, hc, cfg);
    SweptIsAhead(p, q, side);
    SweptIsPlayedOut(p, side);
    SweptIsPlayedOut(q, side);
    hide TotalPoints, Played, Won, SpotFor, SweptBy, Extends;
    assert side == Home || side == Away;
  }

  lemma SweptIsPlayedOut(p: Pairing, side: Side)
    ensures Played(SweptBy(p, side).Games()) == 3
  {
    ThreeGames(SweptBy(p, side));
    hide Played, TotalPoints, Won;
  }

  lemma SweptIsAhead(p: Pairing, q: Pairing, side: Side)
    requires Extends(p, q)
    ensures var r, s := SweptBy(q, side).Games(), SweptBy(p, side).Games();
            && TotalPoints(s, side) >= TotalPoints(r, side) && TotalPoints(s, side.Other()) <= TotalPoints(r, side.Other())
            && Won(s, side) >= Won(r, side) && Won(s, side.Other()) <= Won(r, side.Other())
  {
    ThreeGames(SweptBy(p, side));
    ThreeGames(SweptBy(q, side));
    hide TotalPoints, Played, Won;
    SweepGameIsAhead(p.game1, q.game1, side);
    SweepGameIsAhead(p.game2, q.game2, side);
    SweepGameIsAhead(p.game3, q.game3, side);
    hide Points, Wins, GoesOn, Sweep;
  }

  lemma SweepGameIsAhead(g: Game, h: Game, side: Side)
    requires GoesOn(g, h)
    ensures Points(Sweep(g, side), side) >= Points(Sweep(h, side), side)
    ensures Points(Sweep(g, side), side.Other()) <= Points(Sweep(h, side), side.Other())
    ensures Wins(Sweep(g, side), side) >= Wins(Sweep(h, side), side)
    ensures Wins(Sweep(g, side), side.Other()) <= Wins(Sweep(h, side), side.Other())
  {
  }

  /** The sheet on which a side wins every open game ten to nothing. */
  function SweptSheet(ps: seq<Pairing>, side: Side): (qs: seq<Pairing>)
    ensures |qs| == |ps|
  {
    seq(|ps|, i requires 0 <= i < |ps| => SweptBy(ps[i], side))
  }

  lemma SweptSheetExtends(ps: seq<Pairing>, side: Side)
    ensures SheetExtends(ps, SweptSheet(ps, side))
  {
    forall i | 0 <= i < |ps|
      ensures Extends(ps[i], SweptBy(ps[i], side))
    {
      SweepPoints(ps[i], side);
    }
  }

  lemma SweptSheetIsBest(ps: seq<Pairing>, qs: seq<Pairing>, hcs: seq<PairingHC>, cfg: RoundConfig, side: Side)
    requires SheetExtends(ps, qs) && |hcs| == |ps|
    ensures SideGrows(PairingWinners(qs, hcs, cfg), PairingWinners(SweptSheet(ps, side), hcs, cfg), side)
    ensures SameRounds(qs, SweptSheet(ps, side))
  {
    hide PairingWinner;
    forall i | 0 <= i < |ps|
      ensures SweptBy(ps[i], side).round == qs[i].round
      ensures PairingWinner(qs[i], hcs[i], cfg) == Some(side) ==> PairingWinner(SweptBy(ps[i], side), hcs[i], cfg) == Some(side)
    {
      assert Extends(ps[i], qs[i]);
      if PairingWinner(qs[i], hcs[i], cfg) == Some(side) {
        SweepIsBest(ps[i], qs[i], hcs[i], cfg, side);
      }
    }
  }

  /**
   Main result: in a round of any size, one declared for the away side is final exactly when the
   home side, winning every open game ten to nothing, would not reach two pairings.
   */
  lemma AwayRoundIsFinalExactlyWhen(ps: seq<Pairing>, hcs: seq<PairingHC>, cfg: RoundConfig, round: int)
    requires |hcs| == |ps| && RoundWinner(ps, PairingWinners(ps, hcs, cfg), round) == Some(Away)
    ensures (forall qs :: SheetExtends(ps, qs) ==> RoundWinner(qs, PairingWinners(qs, hcs, cfg), round) == Some(Away)) <==>
            RoundWins(SweptSheet(ps, Home), PairingWinners(SweptSheet(ps, Home), hcs, cfg), round, Home) < 2
  {
    hide PairingWinners, RoundWins, SweptSheet;
    var best := SweptSheet(ps, Home);
    SweptSheetExtends(ps, Home);
    if RoundWins(best, PairingWinners(best, hcs, cfg), round, Home) < 2 {
      forall qs | SheetExtends(ps, qs)
        ensures RoundWinner(qs, PairingWinners(qs, hcs, cfg), round) == Some(Away)
      {
        WinnersFollow(ps, qs, hcs, cfg);
        RoundWinsGrow(ps, qs, PairingWinners(ps, hcs, cfg), PairingWinners(qs, hcs, cfg), round, Away);
        SweptSheetIsBest(ps, qs, hcs, cfg, Home);
        RoundWinsGrow(qs, best, PairingWinners(qs, hcs, cfg), PairingWinners(best, hcs, cfg), round, Home);
      }
    }
  }

  // ---- Four pairings in a round would break it ----------------------------------------------------

  const WON := Game(10, 0)
  const LOST := Game(0, 10)
  const OPEN := Game(0, 0)

  function Four(last: Game): seq<Pairing> {
    [Pairing(1, 1, 5, LOST, LOST, LOST), Pairing(1, 2, 6, LOST, LOST, LOST),
     Pairing(1, 3, 7, last, last, last), Pairing(1, 4, 8, last, last, last)]
  }

  /** With equal handicaps, winning all three games wins the pairing, and no game played wins nothing. */
  lemma Unspotted(p: Pairing, cfg: RoundConfig)
    requires p.game1 == p.game2 == p.game3
    ensures PairingWinner(p, PairingHC(0.0, 0.0), cfg) ==
            if p.game1 == WON then Some(Home) else if p.game1 == LOST then Some(Away) else if p.game1 == OPEN then None
            else PairingWinner(p, PairingHC(0.0, 0.0), cfg)
  {
    ThreeGames(p);
    hide TotalPoints, Played, Won;
  }

  lemma FourPairingWinners(last: Game, w: Option<Side>, cfg: RoundConfig)
    requires (last == OPEN && w == None) || (last == WON && w == Some(Home))
    ensures PairingWinners(Four(last), EQUAL, cfg) == [Some(Away), Some(Away), w, w]
  {
    var ps := Four(last);
    hide PairingWinner;
    forall i | 0 <= i < 4 ensures PairingWinner(ps[i], EQUAL[i], cfg) == if i < 2 then Some(Away) else w {
      Unspotted(ps[i], cfg);
    }
  }

  lemma RoundOfTwo(ps: seq<Pairing>, ws: seq<Option<Side>>, p: Pairing, v: Option<Side>, q: Pairing, w: Option<Side>,
                   round: int, side: Side)
    requires |ps| == |ws| && p.round == q.round == round
    ensures RoundWins(ps + [p, q], ws + [v, w], round, side) ==
            RoundWins(ps, ws, round, side) + (if v == Some(side) then 1 else 0) + if w == Some(side) then 1 else 0
  {
    hide RoundWins;
    RoundWinsStep(ps, ws, p, v, round, side);
    RoundWinsStep(ps + [p], ws + [v], q, w, round, side);
    assert ps + [p] + [q] == ps + [p, q] && ws + [v] + [w] == ws + [v, w];
  }

  lemma FourWinners(last: Game, w: Option<Side>, cfg: RoundConfig, side: Side)
    requires (last == OPEN && w == None) || (last == WON && w == Some(Home))
    ensures RoundWins(Four(last), PairingWinners(Four(last), EQUAL, cfg), 1, side) ==
            (if side == Away then 2 else 0) + if Some(side) == w then 2 else 0
  {
    var ps, v := Four(last), Some(Away);
    FourPairingWinners(last, w, cfg);
    assert RoundWins([], [], 1, side) == 0;
    hide RoundWins, PairingWinners;
    RoundOfTwo([], [], ps[0], v, ps[1], v, 1, side);
    RoundOfTwo([ps[0], ps[1]], [v, v], ps[2], w, ps[3], w, 1, side);
    assert [] + [ps[0], ps[1]] == [ps[0], ps[1]] && [] + [v, v] == [v, v];
    assert [ps[0], ps[1]] + [ps[2], ps[3]] == ps && [v, v] + [w, w] == [v, v, w, w];
  }

  const EQUAL: seq<PairingHC> := [PairingHC(0.0, 0.0), PairingHC(0.0, 0.0), PairingHC(0.0, 0.0), PairingHC(0.0, 0.0)]

  /** In a round of four the away side can be declared the winner and then lose the round. */
  lemma AwayRoundOfFourCanFlip(cfg: RoundConfig)
    ensures SheetExtends(Four(OPEN), Four(WON))
    ensures RoundWinner(Four(OPEN), PairingWinners(Four(OPEN), EQUAL, cfg), 1) == Some(Away)
    ensures RoundWinner(Four(WON), PairingWinners(Four(WON), EQUAL, cfg), 1) == Some(Home)
  {
    hide RoundWins, PairingWinners;
    FourWinners(OPEN, None, cfg, Home);
    FourWinners(OPEN, None, cfg, Away);
    FourWinners(WON, Some(Home), cfg, Home);
    FourWinners(WON, Some(Home), cfg, Away);
  }
}
