/**
 Handicap recommendations: racks are collected per player, averaged over a window of the most
 recent ones, capped, and classified. A token pins down everything a recommendation was made from.
 */
module HandicapRecs {
  import opened Prelude
  import opened MatchRecords

  // ---- Cents -------------------------------------------------------------------------------

  function Cents(x: real): int {
    RoundHalfAway(x * 100.0)
  }

  /** To the nearest cent, halves away from zero. */
  function RoundHC(x: real): real {
    Cents(x) as real / 100.0
  }

  // ---- The implied handicap ------------------------------------------------------------------

  /** A rack from the reviewed player's side: the opponent's snapshot and the difference in balls. */
  datatype Sample = Sample(opponent: real, diff: int)

  function Implied(s: Sample): real {
    s.opponent + s.diff as real / 0.85
  }

  function SumOf(samples: seq<Sample>): real {
    if samples == [] then 0.0 else SumOf(samples[..|samples| - 1]) + Implied(samples[|samples| - 1])
  }

  function Average(samples: seq<Sample>): real
    requires samples != []
  {
    RoundHC(SumOf(samples) / |samples| as real)
  }

  datatype CalcResult = CalcResult(lifetime: real, lifetimeRacks: nat, window: real, windowRacks: nat)

  /** The average over all samples, and over the most recent window of them. */
  function ImpliedHandicap(samples: seq<Sample>, window: nat): CalcResult
    requires window >= 1
  {
    if samples == [] then CalcResult(0.0, 0, 0.0, 0)
    else
      var n := if window > |samples| then |samples| else window;
      CalcResult(Average(samples), |samples|, Average(samples[..n]), n)
  }

  method AverageOf(samples: seq<Sample>) returns (average: real)
    requires samples != []
    ensures average == Average(samples)
  {
    var sum := 0.0;
    for i := 0 to |samples|
      invariant sum == SumOf(samples[..i])
    {
      assert samples[..i + 1][..i] == samples[..i];
      sum := sum + (samples[i].opponent + samples[i].diff as real / 0.85);
    }
    assert samples[..|samples|] == samples;
    return RoundHC(sum / |samples| as real);
  }

  method ComputeImpliedHandicap(samples: seq<Sample>, window: nat) returns (r: CalcResult)
    requires window >= 1
    ensures r == ImpliedHandicap(samples, window)
  {
    if |samples| == 0 {
      return CalcResult(0.0, 0, 0.0, 0);
    }
    var n := window;
    if n > |samples| {
      n := |samples|;
    }
    hide Average;
    var lifetime := AverageOf(samples);
    var recent := AverageOf(samples[..n]);
    return CalcResult(lifetime, |samples|, recent, n);
  }

  // ---- Collecting racks ----------------------------------------------------------------------

  datatype Accum = Accum(eligible: nat, missing: nat, samples: seq<Sample>)

  const NOTHING := Accum(0, 0, [])

  predicate ScoreEligible(player: int, opponent: int) {
    (player == 10 && 0 <= opponent <= 7) || (opponent == 10 && 0 <= player <= 7)
  }

  function AddSlot(acc: Accum, player: int, opponent: int, snapshot: Option<real>): Accum {
    if !ScoreEligible(player, opponent) then acc
    else if snapshot.None? then acc.(eligible := acc.eligible + 1, missing := acc.missing + 1)
    else acc.(eligible := acc.eligible + 1, samples := acc.samples + [Sample(snapshot.value, player - opponent)])
  }

  /** The latest rack of a row comes first. */
  function AddSlots(acc: Accum, slots: seq<(int, int)>, snapshot: Option<real>): Accum {
    if slots == [] then acc
    else AddSlot(AddSlots(acc, slots[..|slots| - 1], snapshot), slots[|slots| - 1].0, slots[|slots| - 1].1, snapshot)
  }

  function HomeSlots(row: RoundRow): seq<(int, int)> {
    var p := row.pairing;
    [(p.game3.home, p.game3.away), (p.game2.home, p.game2.away), (p.game1.home, p.game1.away)]
  }

  function AwaySlots(row: RoundRow): seq<(int, int)> {
    var p := row.pairing;
    [(p.game3.away, p.game3.home), (p.game2.away, p.game2.home), (p.game1.away, p.game1.home)]
  }

  function AddRow(acc: Accum, row: RoundRow, player: int): Accum {
    var asHome := if row.pairing.homePlayer == player then AddSlots(acc, HomeSlots(row), row.awayHC) else acc;
    if row.pairing.awayPlayer == player then AddSlots(asHome, AwaySlots(row), row.homeHC) else asHome
  }

  /** What the racks hold for a player. */
  function AccumOf(racks: seq<RoundRow>, player: int): Accum {
    if racks == [] then NOTHING else AddRow(AccumOf(racks[..|racks| - 1], player), racks[|racks| - 1], player)
  }

  // ---- Recommendations -----------------------------------------------------------------------

  datatype Reason = Actionable | Capped | NoChange | NoData | BelowThreshold | AdminHold

  /** Issued tokens stand for a hash of their contents; a caller may also send none, or any text. */
  datatype Token =
    | NoToken
    | Issued(season: int, player: int, current: real, window: nat, threshold: nat, maxHC: real,
             samples: seq<Sample>, lifetimeRacks: nat, windowRacks: nat, recommended: real)
    | Text(text: string)

  datatype Config = Config(season: int, window: nat, threshold: nat, maxHC: real)

  datatype RosterEntry = RosterEntry(player: int, name: string, current: real, hold: bool)

  datatype Rec = Rec(
    entry: RosterEntry, eligible: nat, missing: nat, included: int, result: CalcResult,
    recommended: Option<real>, change: Option<real>, reason: Reason, token: Token)

  predicate Exceeds(implied: real, maxHC: real) {
    implied > maxHC || implied < -maxHC
  }

  function Cap(implied: real, maxHC: real): real {
    if implied > maxHC then RoundHC(maxHC) else if implied < -maxHC then RoundHC(-maxHC) else implied
  }

  function ReasonFor(e: RosterEntry, included: int, result: CalcResult, cfg: Config): Reason {
    if included == 0 then NoData
    else if e.hold then AdminHold
    else if result.windowRacks < cfg.threshold then BelowThreshold
    else if Exceeds(result.window, cfg.maxHC) then Capped
    else if result.window == RoundHC(e.current) then NoChange
    else Actionable
  }

  function RecFor(e: RosterEntry, acc: Accum, cfg: Config): Rec
    requires cfg.window >= 1
  {
    var result := ImpliedHandicap(acc.samples, cfg.window);
    var included := acc.eligible - acc.missing;
    var reason := ReasonFor(e, included, result, cfg);
    var recommended := Cap(result.window, cfg.maxHC);
    var made := reason in {Capped, NoChange, Actionable};
    Rec(e, acc.eligible, acc.missing, included, result,
      if made then Some(recommended) else None,
      if made then Some(RoundHC(recommended - e.current)) else None,
      reason,
      if reason in {Capped, Actionable} then
        Issued(cfg.season, e.player, RoundHC(e.current), cfg.window, cfg.threshold, cfg.maxHC, acc.samples,
          result.lifetimeRacks, result.windowRacks, RoundHC(recommended))
      else NoToken)
  }

  // ---- The loops ---------------------------------------------------------------------------------

  method ProcessSlots(acc: Accum, slots: seq<(int, int)>, snapshot: Option<real>) returns (acc': Accum)
    ensures acc' == AddSlots(acc, slots, snapshot)
  {
    acc' := acc;
    for i := 0 to |slots|
      invariant acc' == AddSlots(acc, slots[..i], snapshot)
    {
      assert slots[..i + 1][..i] == slots[..i];
      var player, opponent := slots[i].0, slots[i].1;
      if !ScoreEligible(player, opponent) {
        continue;
      }
      acc' := acc'.(eligible := acc'.eligible + 1);
      if snapshot.None? {
        acc' := acc'.(missing := acc'.missing + 1);
        continue;
      }
      acc' := acc'.(samples := acc'.samples + [Sample(snapshot.value, player - opponent)]);
    }
    assert slots[..|slots|] == slots;
  }

  method Accumulate(players: set<int>, racks: seq<RoundRow>) returns (accum: map<int, Accum>)
    ensures accum.Keys == players
    ensures forall player :: player in players ==> accum[player] == AccumOf(racks, player)
  {
    accum := map player | player in players :: NOTHING;
    for i := 0 to |racks|
      invariant accum.Keys == players
      invariant forall player :: player in players ==> accum[player] == AccumOf(racks[..i], player)
    {
      hide AddSlots, HomeSlots, AwaySlots;
      assert racks[..i + 1][..i] == racks[..i];
      var row := racks[i];
      var home, away := row.pairing.homePlayer, row.pairing.awayPlayer;
      if home in players {
        var acc := ProcessSlots(accum[home], HomeSlots(row), row.awayHC);
        accum := accum[home := acc];
      }
      if away in players {
        var acc := ProcessSlots(accum[away], AwaySlots(row), row.homeHC);
        accum := accum[away := acc];
      }
    }
    assert racks[..|racks|] == racks;
  }

  method RecommendFor(e: RosterEntry, acc: Accum, cfg: Config) returns (rec: Rec)
    requires cfg.window >= 1
    ensures rec == RecFor(e, acc, cfg)
  {
    hide ImpliedHandicap, RoundHC;
    var included := acc.eligible - acc.missing;
    var result := ComputeImpliedHandicap(acc.samples, cfg.window);
    rec := Rec(e, acc.eligible, acc.missing, included, result, None, None, Actionable, NoToken);
    if included == 0 {
      rec := rec.(reason := NoData);
    } else if e.hold {
      rec := rec.(reason := AdminHold);
    } else if result.windowRacks < cfg.threshold {
      rec := rec.(reason := BelowThreshold);
    } else {
      var recommended, capped := result.window, false;
      if recommended > cfg.maxHC {
        recommended, capped := RoundHC(cfg.maxHC), true;
      } else if recommended < -cfg.maxHC {
        recommended, capped := RoundHC(-cfg.maxHC), true;
      }
      rec := rec.(recommended := Some(recommended), change := Some(RoundHC(recommended - e.current)));
      if capped {
        rec := rec.(reason := Capped);
      } else if recommended == RoundHC(e.current) {
        rec := rec.(reason := NoChange);
      }
      if rec.reason == Actionable || rec.reason == Capped {
        rec := rec.(token := Issued(cfg.season, e.player, RoundHC(e.current), cfg.window, cfg.threshold, cfg.maxHC, acc.samples,
          result.lifetimeRacks, result.windowRacks, RoundHC(recommended)));
      }
    }
  }

  method BuildRecs(roster: seq<RosterEntry>, racks: seq<RoundRow>, cfg: Config) returns (recs: seq<Rec>)
    requires cfg.window >= 1
    ensures |recs| == |roster|
    ensures forall i :: 0 <= i < |roster| ==> recs[i] == RecFor(roster[i], AccumOf(racks, roster[i].player), cfg)
  {
    hide RecFor, AccumOf;
    var accum := Accumulate(set e | e in roster :: e.player, racks);
    recs := [];
    for i := 0 to |roster|
      invariant |recs| == i
      invariant forall j :: 0 <= j < i ==> recs[j] == RecFor(roster[j], AccumOf(racks, roster[j].player), cfg)
    {
      var e := roster[i];
      assert e in roster;
      var rec := RecommendFor(e, accum[e.player], cfg);
      recs := recs + [rec];
    }
  }

  // ---- What a recommendation promises ---------------------------------------------------------------

  lemma RoundingWholes(k: int)
    ensures RoundHalfAway(k as real) == k
  {
  }

  lemma RoundHCOfCents(x: real, k: int)
    requires x == k as real / 100.0
    ensures RoundHC(x) == x
  {
    assert x * 100.0 == k as real;
    RoundingWholes(k);
  }

  lemma RoundTwice(x: real)
    ensures RoundHC(RoundHC(x)) == RoundHC(x)
  {
    hide RoundHalfAway;
    RoundHCOfCents(RoundHC(x), Cents(x));
  }

  lemma RoundMonotone(x: real, y: real)
    requires x <= y
    ensures RoundHC(x) <= RoundHC(y)
  {
    assert x * 100.0 <= y * 100.0;
    RoundingMonotone(x * 100.0, y * 100.0);
  }

  lemma RoundNegative(x: real)
    ensures RoundHC(-x) == -RoundHC(x)
  {
    assert -x * 100.0 == -(x * 100.0);
  }

  /** Racks that count as data are exactly the samples. */
  lemma {:induction false} IncludedAreSamples(racks: seq<RoundRow>, player: int)
    ensures var acc := AccumOf(racks, player); acc.eligible - acc.missing == |acc.samples|
  {
    if racks != [] {
      IncludedAreSamples(racks[..|racks| - 1], player);
      var acc, row := AccumOf(racks[..|racks| - 1], player), racks[|racks| - 1];
      hide HomeSlots, AwaySlots, AddSlots;
      SlotsAreSamples(acc, HomeSlots(row), row.awayHC);
      var asHome := if row.pairing.homePlayer == player then AddSlots(acc, HomeSlots(row), row.awayHC) else acc;
      SlotsAreSamples(asHome, AwaySlots(row), row.homeHC);
    }
  }

  lemma {:induction false} SlotsAreSamples(acc: Accum, slots: seq<(int, int)>, snapshot: Option<real>)
    requires acc.eligible - acc.missing == |acc.samples|
    ensures var acc' := AddSlots(acc, slots, snapshot); acc'.eligible - acc'.missing == |acc'.samples|
  {
    if slots != [] {
      SlotsAreSamples(acc, slots[..|slots| - 1], snapshot);
    }
  }

  /** The implied handicap over a window is in whole cents. */
  lemma WindowInCents(samples: seq<Sample>, window: nat)
    requires window >= 1
    ensures RoundHC(ImpliedHandicap(samples, window).window) == ImpliedHandicap(samples, window).window
  {
    hide RoundHC;
    if samples == [] {
      RoundZero();
    } else {
      var n := if window > |samples| then |samples| else window;
      RoundTwice(SumOf(samples[..n]) / n as real);
    }
  }

  lemma RoundZero()
    ensures RoundHC(0.0) == 0.0
  {
    RoundHCOfCents(0.0, 0);
  }

  lemma CapInCents(implied: real, maxHC: real)
    requires RoundHC(implied) == implied
    ensures RoundHC(Cap(implied, maxHC)) == Cap(implied, maxHC)
  {
    hide RoundHC;
    RoundTwice(maxHC);
    RoundTwice(-maxHC);
  }

  lemma CapBounds(implied: real, maxHC: real)
    requires RoundHC(implied) == implied && maxHC > 0.0
    ensures -RoundHC(maxHC) <= Cap(implied, maxHC) <= RoundHC(maxHC)
  {
    hide RoundHC;
    RoundNegative(maxHC);
    if !Exceeds(implied, maxHC) {
      RoundMonotone(implied, maxHC);
      RoundMonotone(-maxHC, implied);
    } else {
      RoundMonotone(0.0, maxHC);
      RoundZero();
    }
  }

  /** Main result: every recommendation is in whole cents and within the cap, itself rounded to a cent. */
  lemma RecommendedWithinCap(e: RosterEntry, acc: Accum, cfg: Config)
    requires cfg.window >= 1 && cfg.maxHC > 0.0
    ensures var rec := RecFor(e, acc, cfg);
            rec.recommended.Some? ==>
              && RoundHC(rec.recommended.value) == rec.recommended.value
              && -RoundHC(cfg.maxHC) <= rec.recommended.value <= RoundHC(cfg.maxHC)
  {
    hide RoundHC, ImpliedHandicap, Cap;
    WindowInCents(acc.samples, cfg.window);
    CapInCents(ImpliedHandicap(acc.samples, cfg.window).window, cfg.maxHC);
    CapBounds(ImpliedHandicap(acc.samples, cfg.window).window, cfg.maxHC);
  }

  /**
   Main result: once a player has the recommended handicap, the same racks recommend it again: a
   change of zero, reported as no change, or as capped if the implied handicap exceeds the cap.
   */
  lemma RecommendingAgain(e: RosterEntry, acc: Accum, cfg: Config)
    requires cfg.window >= 1 && RecFor(e, acc, cfg).recommended.Some?
    ensures var rec := RecFor(e, acc, cfg);
            var again := RecFor(e.(current := rec.recommended.value), acc, cfg);
            && again.recommended == rec.recommended
            && again.change == Some(0.0)
            && again.reason == if rec.reason == Capped then Capped else NoChange
  {
    var window := ImpliedHandicap(acc.samples, cfg.window).window;
    hide RoundHC, ImpliedHandicap;
    WindowInCents(acc.samples, cfg.window);
    CapInCents(window, cfg.maxHC);
    RoundZero();
    assert Cap(window, cfg.maxHC) - Cap(window, cfg.maxHC) == 0.0;
  }

  /** Equal tokens mean the same player, racks, rules, rounded handicap and recommendation. */
  lemma {:induction false} TokenPinsInputs(e: RosterEntry, acc: Accum, cfg: Config, e': RosterEntry, acc': Accum, cfg': Config)
    requires cfg.window >= 1 && cfg'.window >= 1 && RecFor(e, acc, cfg).token.Issued?
    requires RecFor(e, acc, cfg).token == RecFor(e', acc', cfg').token
    ensures e'.player == e.player && acc'.samples == acc.samples && cfg' == cfg && Cents(e'.current) == Cents(e.current)
    ensures RecFor(e', acc', cfg').recommended == RecFor(e, acc, cfg).recommended
    ensures RecFor(e', acc', cfg').reason == RecFor(e, acc, cfg).reason
  {
    hide ImpliedHandicap, RoundHalfAway;
  }

  /** Racks older than the window leave the recommendation alone, but never the token. */
  lemma OlderRacksOnlyChangeTheToken(e: RosterEntry, acc: Accum, older: seq<Sample>, cfg: Config)
    requires 1 <= cfg.window <= |acc.samples| && older != [] && acc.eligible - acc.missing == |acc.samples|
    ensures var rec := RecFor(e, acc, cfg);
            var more := RecFor(e, Accum(acc.eligible + |older|, acc.missing, acc.samples + older), cfg);
            && more.recommended == rec.recommended && more.change == rec.change && more.reason == rec.reason
            && (rec.token.Issued? ==> more.token.Issued? && more.token != rec.token)
  {
    hide Average, RoundHC;
    assert (acc.samples + older)[..cfg.window] == acc.samples[..cfg.window];
    assert |acc.samples + older| > |acc.samples|;
  }

  // ---- What the average means --------------------------------------------------------------------

  function TotalDiff(samples: seq<Sample>): int {
    if samples == [] then 0 else TotalDiff(samples[..|samples| - 1]) + samples[|samples| - 1].diff
  }

  /** What the spot formula expects the differences to come to for a player of the given handicap. */
  function Predicted(samples: seq<Sample>, handicap: real): real {
    if samples == [] then 0.0
    else Predicted(samples[..|samples| - 1], handicap) + 0.85 * (handicap - samples[|samples| - 1].opponent)
  }

  /** Prediction and outcome differ by what the implied handicaps and the given one do, per rack. */
  lemma {:induction false} GapPerRack(samples: seq<Sample>, handicap: real)
    ensures TotalDiff(samples) as real - Predicted(samples, handicap) == 0.85 * (SumOf(samples) - |samples| as real * handicap)
  {
    if samples != [] {
      var n := |samples| - 1;
      GapPerRack(samples[..n], handicap);
      var s := samples[n];
      assert |samples| as real * handicap == n as real * handicap + handicap;
      assert 0.85 * Implied(s) == 0.85 * s.opponent + s.diff as real;
    }
  }

  /**
   Main result: the average before rounding is the one handicap for which the spot formula
   predicts exactly the difference in balls that the racks came to in total.
   */
  lemma AverageFitsTheRacks(samples: seq<Sample>, handicap: real)
    requires samples != []
    ensures TotalDiff(samples) as real == Predicted(samples, handicap) <==> handicap == SumOf(samples) / |samples| as real
    ensures TotalDiff(samples) as real == Predicted(samples, handicap) ==> Average(samples) == RoundHC(handicap)
  {
    GapPerRack(samples, handicap);
    hide SumOf, RoundHC, TotalDiff, Predicted;
    QuotientOf(SumOf(samples), |samples| as real, handicap);
  }

  lemma QuotientOf(sum: real, n: real, x: real)
    requires n > 0.0
    ensures sum == n * x <==> x == sum / n
  {
  }
}
