/** What saving a sheet over an earlier one keeps. */
module SnapshotTheorems {
  import opened Prelude
  import opened MatchRecords
  import opened Scoresheet
  import opened Snapshots
  import opened SaveRounds

  // ---- What a slot keeps ---------------------------------------------------------------

  predicate SameAway(p: Pairing, q: Pairing) {
    p.round == q.round && p.awayPlayer == q.awayPlayer
  }

  /** The stored row a slot is matched with by its home player is the one of that slot. */
  lemma FoundByHome(rows: seq<RoundRow>, p: Pairing, i: nat)
    requires i < |rows| && SameSlot(rows[i].pairing, p)
    requires forall j, k :: 0 <= j < k < |rows| ==> !SameSlot(rows[j].pairing, rows[k].pairing)
    ensures FirstWithHome(RowsIn(rows, p.round), p.homePlayer) == Some(rows[i])
  {
    var found := FirstWithHome(RowsIn(rows, p.round), p.homePlayer);
    assert rows[i] in RowsIn(rows, p.round);
    var j :| 0 <= j < |rows| && rows[j] == found.value;
    assert SameSlot(rows[j].pairing, rows[i].pairing) && SameSlot(rows[i].pairing, rows[j].pairing);
  }

  lemma NotFoundByHome(rows: seq<RoundRow>, p: Pairing)
    requires forall i :: 0 <= i < |rows| ==> !SameSlot(rows[i].pairing, p)
    ensures FirstWithHome(RowsIn(rows, p.round), p.homePlayer) == None
  {
    forall row | row in rows
      ensures !SameSlot(row.pairing, p)
    {
    }
  }

  /** The rows with p's round and away player, as ascending indices. */
  ghost predicate AreAwayRows(at: seq<nat>, rows: seq<RoundRow>, p: Pairing, found: seq<RoundRow>) {
    && |at| == |found|
    && (forall k :: 0 <= k < |at| ==> at[k] < |rows| && SameAway(rows[at[k]].pairing, p) && rows[at[k]] == found[k])
    && (forall j, k :: 0 <= j < k < |at| ==> at[j] < at[k])
    && (forall i :: 0 <= i < |rows| && SameAway(rows[i].pairing, p) ==> i in at)
  }

  lemma OneMoreAwayRow(at: seq<nat>, rows: seq<RoundRow>, p: Pairing, found: seq<RoundRow>, row: RoundRow)
    requires AreAwayRows(at, rows, p, found)
    ensures SameAway(row.pairing, p) ==> AreAwayRows(at + [|rows|], rows + [row], p, found + [row])
    ensures !SameAway(row.pairing, p) ==> AreAwayRows(at, rows + [row], p, found)
  {
    if SameAway(row.pairing, p) {
      var at' := at + [|rows|];
      assert at'[|at|] == |rows|;
      forall i | 0 <= i < |rows| && SameAway(rows[i].pairing, p)
        ensures i in at'
      {
        assert i in at;
      }
    }
  }

  lemma NoAwayRows(p: Pairing)
    ensures AreAwayRows([], [], p, WithAway(RowsIn([], p.round), p.awayPlayer))
  {
  }

  lemma {:induction false} AwayRows(rows: seq<RoundRow>, p: Pairing) returns (at: seq<nat>)
    ensures AreAwayRows(at, rows, p, WithAway(RowsIn(rows, p.round), p.awayPlayer))
  {
    hide *;
    if rows == [] {
      NoAwayRows(p);
      at := [];
    } else {
      var init, last := rows[..|rows| - 1], rows[|rows| - 1];
      at := AwayRows(init, p);
      WithAwayStep(init, last, p);
      OneMoreAwayRow(at, init, p, WithAway(RowsIn(init, p.round), p.awayPlayer), last);
      assert rows == init + [last];
      if SameAway(last.pairing, p) {
        at := at + [|init|];
      }
    }
  }

  lemma WithAwayStep(rows: seq<RoundRow>, last: RoundRow, p: Pairing)
    ensures SameAway(last.pairing, p) ==>
              WithAway(RowsIn(rows + [last], p.round), p.awayPlayer) == WithAway(RowsIn(rows, p.round), p.awayPlayer) + [last]
    ensures !SameAway(last.pairing, p) ==>
              WithAway(RowsIn(rows + [last], p.round), p.awayPlayer) == WithAway(RowsIn(rows, p.round), p.awayPlayer)
  {
    var earlier := RowsIn(rows, p.round);
    assert (rows + [last])[..|rows|] == rows;
    if last.pairing.round == p.round {
      assert RowsIn(rows + [last], p.round) == earlier + [last];
      assert (earlier + [last])[..|earlier|] == earlier;
    } else {
      assert RowsIn(rows + [last], p.round) == earlier;
    }
  }

  /**
   Main result, first half: a slot whose round and home player were saved before keeps the home
   snapshot, and the away snapshot too when the away player is the same; it is never ambiguous.
   */
  lemma UnchangedSlotKeepsSnapshots(qs: seq<Pairing>, hcs: seq<PairingHC>, cfg: RoundConfig, p: Pairing, i: nat, handicaps: map<int, real>)
    requires |hcs| == |qs| && !HomeTwice(qs) && i < |qs| && SameSlot(qs[i], p)
    ensures var stored := RowsFor(qs, hcs, cfg);
            && !Ambiguous(RowsIn(stored, p.round), p)
            && Effective(RowsIn(stored, p.round), p, handicaps) ==
               PairingHC(hcs[i].home, if qs[i].awayPlayer == p.awayPlayer then hcs[i].away else Current(handicaps, p.awayPlayer))
  {
    hide RowsIn, FirstWithHome, CalcSpotM;
    FoundByHome(RowsFor(qs, hcs, cfg), p, i);
  }

  /**
   Main result, second half: with a new home player, the away snapshot is kept when exactly one
   stored pairing of the round has that away player, none is when there is none, and saving is
   refused as ambiguous exactly when there are several.
   */
  lemma NewHomePlayerKeepsAwaySnapshot(qs: seq<Pairing>, hcs: seq<PairingHC>, cfg: RoundConfig, p: Pairing, handicaps: map<int, real>)
    requires |hcs| == |qs| && forall i :: 0 <= i < |qs| ==> !SameSlot(qs[i], p)
    ensures var earlier := RowsIn(RowsFor(qs, hcs, cfg), p.round);
            && (Ambiguous(earlier, p) <==> exists i, j :: 0 <= i < j < |qs| && SameAway(qs[i], p) && SameAway(qs[j], p))
            && (forall i :: 0 <= i < |qs| && SameAway(qs[i], p) && !Ambiguous(earlier, p) ==>
                  Effective(earlier, p, handicaps) == PairingHC(Current(handicaps, p.homePlayer), hcs[i].away))
            && ((forall i :: 0 <= i < |qs| ==> !SameAway(qs[i], p)) ==>
                  Effective(earlier, p, handicaps) == PairingHC(Current(handicaps, p.homePlayer), Current(handicaps, p.awayPlayer)))
  {
    hide *;
    var rows := RowsFor(qs, hcs, cfg);
    RowsCarry(qs, hcs, cfg);
    NotFoundByHome(rows, p);
    var at := AwayRows(rows, p);
    AmbiguousIs(rows, p, at);
    EffectiveIs(rows, p, at, handicaps);
    AwayRowsOf(rows, p, at);
    forall i | 0 <= i < |qs| && SameAway(qs[i], p) && |at| <= 1
      ensures at == [i]
    {
      assert i in at;
    }
    if |at| > 1 {
      assert SameAway(qs[at[0]], p) && SameAway(qs[at[1]], p) && at[0] < at[1];
    } else if |at| == 1 {
      assert SameAway(qs[at[0]], p) && rows[at[0]].awayHC == Some(hcs[at[0]].away);
    }
    if i, j :| 0 <= i < j < |qs| && SameAway(qs[i], p) && SameAway(qs[j], p) {
      assert i in at && j in at;
    }
  }

  lemma RowsCarry(qs: seq<Pairing>, hcs: seq<PairingHC>, cfg: RoundConfig)
    requires |hcs| == |qs|
    ensures forall i :: 0 <= i < |qs| ==> RowsFor(qs, hcs, cfg)[i].pairing == qs[i] && RowsFor(qs, hcs, cfg)[i].awayHC == Some(hcs[i].away)
  {
    hide CalcSpotM;
  }

  lemma AwayRowsOf(rows: seq<RoundRow>, p: Pairing, at: seq<nat>)
    requires AreAwayRows(at, rows, p, WithAway(RowsIn(rows, p.round), p.awayPlayer))
    ensures forall k :: 0 <= k < |at| ==> at[k] < |rows| && SameAway(rows[at[k]].pairing, p)
    ensures forall j, k :: 0 <= j < k < |at| ==> at[j] < at[k]
    ensures forall i :: 0 <= i < |rows| && SameAway(rows[i].pairing, p) ==> i in at
  {
    hide WithAway, RowsIn, SameAway;
  }

  lemma AmbiguousIs(rows: seq<RoundRow>, p: Pairing, at: seq<nat>)
    requires AreAwayRows(at, rows, p, WithAway(RowsIn(rows, p.round), p.awayPlayer))
    requires FirstWithHome(RowsIn(rows, p.round), p.homePlayer) == None
    ensures Ambiguous(RowsIn(rows, p.round), p) <==> |at| > 1
  {
    hide WithAway, RowsIn, FirstWithHome, SameAway;
  }

  lemma EffectiveIs(rows: seq<RoundRow>, p: Pairing, at: seq<nat>, handicaps: map<int, real>)
    requires AreAwayRows(at, rows, p, WithAway(RowsIn(rows, p.round), p.awayPlayer))
    requires FirstWithHome(RowsIn(rows, p.round), p.homePlayer) == None
    ensures |at| == 1 ==> at[0] < |rows|
    ensures Effective(RowsIn(rows, p.round), p, handicaps) ==
            PairingHC(Current(handicaps, p.homePlayer),
              if |at| == 1 && rows[at[0]].awayHC.Some? then rows[at[0]].awayHC.value else Current(handicaps, p.awayPlayer))
  {
    hide WithAway, RowsIn, FirstWithHome, SameAway, Current;
  }

  /** What a saved sheet leaves in the table: its games, the handicaps they were played under, and a spot that levels them. */
  lemma SavedRowsTell(ps: seq<Pairing>, hcs: seq<PairingHC>, cfg: RoundConfig, i: nat)
    requires |hcs| == |ps| && i < |ps| && cfg.multiplier >= 0.0
    ensures var row := RowsFor(ps, hcs, cfg)[i];
            && row.pairing == ps[i] && row.homeHC == Some(hcs[i].home) && row.awayHC == Some(hcs[i].away)
            && -0.5 <= cfg.multiplier * (hcs[i].home - hcs[i].away) + HomeSpot(row.spot) as real <= 0.5
  {
    hide CalcSpotM, HomeSpot;
    SpotLevelsThePairing(hcs[i].home, hcs[i].away, cfg.multiplier);
  }

  // ---- Saving the same sheet again --------------------------------------------------------

  lemma SavedAgain(stored: seq<RoundRow>, ps: seq<Pairing>, handicaps: map<int, real>, later: map<int, real>, cfg: RoundConfig, i: nat)
    requires !HomeTwice(ps) && i < |ps|
    ensures var hcs := HandicapsFor(stored, ps, handicaps);
            var rows := RowsIn(RowsFor(ps, hcs, cfg), ps[i].round);
            !Ambiguous(rows, ps[i]) && Effective(rows, ps[i], later) == hcs[i]
  {
    hide RowsIn, Ambiguous, Effective, CalcSpotM;
    UnchangedSlotKeepsSnapshots(ps, HandicapsFor(stored, ps, handicaps), cfg, ps[i], i, later);
  }

  /**
   Main result: saving the same sheet again, after any change to the players' current handicaps,
   is accepted and resolves the same handicaps, so it stores the same rows.
   */
  lemma ResavingKeepsRows(stored: seq<RoundRow>, ps: seq<Pairing>, handicaps: map<int, real>, later: map<int, real>, cfg: RoundConfig)
    requires SaveRefusal(stored, ps, handicaps) == None && PlayersKnown(ps, later)
    ensures var hcs := HandicapsFor(stored, ps, handicaps);
            var rows := RowsFor(ps, hcs, cfg);
            && SaveRefusal(rows, ps, later) == None
            && HandicapsFor(rows, ps, later) == hcs
            && RowsFor(ps, HandicapsFor(rows, ps, later), cfg) == rows
  {
    hide RowsIn, Ambiguous, Effective, CalcSpotM, SheetMessages, HasErrors, HomeTwice;
    forall i | 0 <= i < |ps|
      ensures var hcs := HandicapsFor(stored, ps, handicaps);
              var rows := RowsIn(RowsFor(ps, hcs, cfg), ps[i].round);
              !Ambiguous(rows, ps[i]) && Effective(rows, ps[i], later) == hcs[i]
    {
      SavedAgain(stored, ps, handicaps, later, cfg, i);
    }
  }

  /** The winners of rounds are a function of the sheet. */
  lemma RoundWinnersAreUnique(v: map<int, Side>, w: map<int, Side>, ps: seq<Pairing>, hcs: seq<PairingHC>, cfg: RoundConfig)
    requires |hcs| == |ps| && AreRoundWinners(v, ps, hcs, cfg) && AreRoundWinners(w, ps, hcs, cfg)
    ensures v == w
  {
    hide RoundWinner, PairingWinners;
    forall round
      ensures round in v <==> round in w
      ensures round in v ==> v[round] == w[round]
    {
      var winner := RoundWinner(ps, PairingWinners(ps, hcs, cfg), round);
      assert round in v ==> winner == Some(v[round]);
      assert round in w ==> winner == Some(w[round]);
    }
    SameMap(v, w);
  }

  /** Main result: the results of a sheet are the same rows whenever they are derived, in some order. */
  lemma ResultsAreUnique(xs: seq<ResultRow>, ys: seq<ResultRow>, v: map<int, Side>, w: map<int, Side>, ps: seq<Pairing>,
                         hcs: seq<PairingHC>, cfg: RoundConfig, homeTeam: int, awayTeam: int)
    requires |hcs| == |ps| && AreRoundWinners(v, ps, hcs, cfg) && AreRoundWinners(w, ps, hcs, cfg)
    requires AreResults(xs, ps, v, homeTeam, awayTeam) && AreResults(ys, ps, w, homeTeam, awayTeam)
    ensures multiset(xs) == multiset(ys)
  {
    hide AreRoundWinners;
    RoundWinnersAreUnique(v, w, ps, hcs, cfg);
    hide TakesPart, TallyOf, TeamOf;
    DistinctPlayers(xs);
    DistinctPlayers(ys);
    Included(xs, ys, v, ps, homeTeam, awayTeam);
    Included(ys, xs, v, ps, homeTeam, awayTeam);
    SameDistinctElements(xs, ys);
  }

  lemma DistinctPlayers(xs: seq<ResultRow>)
    requires Distinct(PlayersOf(xs))
    ensures Distinct(xs)
  {
    forall i, j | 0 <= i < j < |xs|
      ensures xs[i] != xs[j]
    {
      assert PlayersOf(xs)[i] != PlayersOf(xs)[j];
    }
  }

  lemma Included(xs: seq<ResultRow>, ys: seq<ResultRow>, v: map<int, Side>, ps: seq<Pairing>, homeTeam: int, awayTeam: int)
    requires AreResults(xs, ps, v, homeTeam, awayTeam) && AreResults(ys, ps, v, homeTeam, awayTeam)
    ensures forall row :: row in xs ==> row in ys
  {
    hide TakesPart, TallyOf, TeamOf;
    forall row | row in xs
      ensures row in ys
    {
      var i :| 0 <= i < |xs| && xs[i] == row;
      assert PlayersOf(xs)[i] in PlayersOf(ys);
      var j :| 0 <= j < |ys| && PlayersOf(ys)[j] == row.player;
      assert ys[j] == row;
    }
  }
}
