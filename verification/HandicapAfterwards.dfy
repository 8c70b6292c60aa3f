/** The recommendations after a commit: applied values stay recommended, and nobody else's move. */
module HandicapAfterwards {
  import opened Prelude
  import opened MatchRecords
  import opened HandicapRecs
  import opened HandicapApply

  // ---- What a commit writes ----------------------------------------------------------------

  /**
   Main result: an entry passes exactly when its player has a live token, the entry carries it, and
   its two expected values agree with the live ones to the cent.
   */
  lemma WritesExactlyWhen(l: Ledger, season: int, e: Entry)
    ensures VerdictOn(e, LiveRec(l, season, e.player)).Write? <==>
            && LiveRec(l, season, e.player).Some?
            && var rec := LiveRec(l, season, e.player).value;
            && rec.token.Issued? && e.token == rec.token
            && Cents(l.players[e.player].handicap) == Cents(e.expectedCurrent)
            && Cents(NewHandicap(l, season, e.player)) == Cents(e.expectedRecommended)
    ensures VerdictOn(e, LiveRec(l, season, e.player)) != Reject(NotEligible)
  {
    hide AccumOf, Cents, ImpliedHandicap, Cap, Exceeds;
    if LiveRec(l, season, e.player).Some? {
      SameCents(l.players[e.player].handicap, e.expectedCurrent);
      SameCents(NewHandicap(l, season, e.player), e.expectedRecommended);
    }
  }

  lemma SameCents(x: real, y: real)
    ensures RoundHC(x) == RoundHC(y) <==> Cents(x) == Cents(y)
  {
    hide Cents;
  }

  /** Main result: every change of a commit takes its player from the value shown to the value shown, to the cent. */
  lemma AppliesWhatWasShown(l: Ledger, season: int, req: Request, i: nat)
    requires AllWrite(l, season, req.entries) && i < |req.entries|
    ensures var e, change := req.entries[i], ChangesFor(l, season, req.entries)[i];
            && change.player == e.player
            && Cents(change.before) == Cents(e.expectedCurrent) && Cents(change.after) == Cents(e.expectedRecommended)
  {
    var e := req.entries[i];
    assert VerdictOn(e, LiveRec(l, season, e.player)).Write?;
    hide AllWrite, VerdictOn, Cents;
    WritesExactlyWhen(l, season, e);
    hide NewHandicap;
  }

  // ---- What is recommended afterwards --------------------------------------------------------

  lemma CommittedPlayer(l: Ledger, season: int, req: Request, h: Hash, player: int)
    requires player in l.players
    ensures var after := Committed(l, season, req, h);
            && player in after.players && after.seasons == l.seasons && after.racks == l.racks
            && EntryOf(after, player) ==
               if player in PlayersOf(req.entries) then EntryOf(l, player).(current := NewHandicap(l, season, player)) else EntryOf(l, player)
  {
    hide NewHandicap, PlayersOf, RowsFor;
  }

  /**
   Main result: once a request has committed, recomputing from the same racks and rules gives every
   player on it the very value applied, a change of zero, as no change or capped, and within the
   cap to a cent; and it gives everybody else the recommendation they had.
   */
  lemma RecomputeAfterCommit(l: Ledger, season: int, req: Request, h: Hash, player: int)
    requires AllWrite(l, season, req.entries)
    ensures var before, now := LiveRec(l, season, player), LiveRec(Committed(l, season, req, h), season, player);
            && (player !in PlayersOf(req.entries) ==> now == before)
            && (player in PlayersOf(req.entries) ==>
                  && before.Some? && now.Some?
                  && now.value.entry.current == NewHandicap(l, season, player)
                  && now.value.recommended == Some(NewHandicap(l, season, player)) && now.value.change == Some(0.0)
                  && now.value.reason == (if before.value.reason == Capped then Capped else NoChange)
                  && (var cap := RoundHC(MaxHC(l.seasons[season].rules.maxHC)); -cap <= NewHandicap(l, season, player) <= cap))
  {
    var after := Committed(l, season, req, h);
    hide RoundHC, AccumOf, RecFor, Reviews, Committed, PlayersOf, EntryOf, VerdictOn, MaxHC;
    if player in l.players {
      CommittedPlayer(l, season, req, h, player);
    } else {
      SamePlayersKnown(l, season, req, h, player);
    }
    if player in PlayersOf(req.entries) {
      WrittenPlayer(l, season, req, player);
      var cfg := ConfigOf(season, l.seasons[season].rules).value;
      var e, acc := EntryOf(l, player), AccumOf(l.racks, player);
      RecommendingAgain(e, acc, cfg);
      RecommendedWithinCap(e, acc, cfg);
      RecKeepsEntry(e.(current := NewHandicap(l, season, player)), acc, cfg);
    }
  }

  lemma SamePlayersKnown(l: Ledger, season: int, req: Request, h: Hash, player: int)
    ensures player in Committed(l, season, req, h).players <==> player in l.players
    ensures Committed(l, season, req, h).seasons == l.seasons
  {
    hide NewHandicap, PlayersOf, RowsFor;
  }

  lemma RecKeepsEntry(e: RosterEntry, acc: Accum, cfg: Config)
    requires cfg.window >= 1
    ensures RecFor(e, acc, cfg).entry == e
  {
    hide ImpliedHandicap;
  }

  /** A player on a request that passes has a live recommendation, with a value. */
  lemma WrittenPlayer(l: Ledger, season: int, req: Request, player: int)
    requires AllWrite(l, season, req.entries) && player in PlayersOf(req.entries)
    ensures Rostered(l, season, player) && LiveRec(l, season, player).Some? && ConfigOf(season, l.seasons[season].rules).Some?
    ensures LiveRec(l, season, player).value == RecFor(EntryOf(l, player), AccumOf(l.racks, player), ConfigOf(season, l.seasons[season].rules).value)
    ensures LiveRec(l, season, player).value.recommended == Some(NewHandicap(l, season, player))
    ensures LiveRec(l, season, player).value.reason in {Capped, Actionable}
  {
    var i :| 0 <= i < |req.entries| && req.entries[i].player == player;
    assert VerdictOn(req.entries[i], LiveRec(l, season, player)).Write?;
    WrittenRec(req.entries[i], LiveRec(l, season, player));
    hide RecFor, AccumOf, VerdictOn;
    if LiveRec(l, season, player).Some? {
      HeldIsNotWritten(l, season, player);
    }
  }

  lemma WrittenRec(e: Entry, live: Option<Rec>)
    requires VerdictOn(e, live).Write?
    ensures live.Some? && live.value.recommended.Some? && !live.value.entry.hold
    ensures live.value.reason !in {NoData, BelowThreshold, NoChange}
    ensures live.value.token == e.token && Cents(live.value.entry.current) == Cents(e.expectedCurrent)
    ensures RoundHC(live.value.recommended.value) == RoundHC(e.expectedRecommended)
  {
    hide Cents;
    assert RoundHC(live.value.entry.current) == RoundHC(e.expectedCurrent);
  }

  /** The reason admin hold is given only to held players. */
  lemma HeldIsNotWritten(l: Ledger, season: int, player: int)
    requires LiveRec(l, season, player).Some?
    ensures LiveRec(l, season, player).value.reason == AdminHold ==> LiveRec(l, season, player).value.entry.hold
  {
    hide ImpliedHandicap, AccumOf;
  }

  /** A player whose capped value was already assigned, so that applying it changes nothing to the cent. */
  predicate CappedInPlace(l: Ledger, season: int, player: int) {
    var live := LiveRec(l, season, player);
    live.Some? && live.value.reason == Capped && RoundHC(live.value.entry.current) == RoundHC(NewHandicap(l, season, player))
  }

  /** The verdict on a committed entry sent once more under a new request ID. */
  lemma VerdictOnceMore(l: Ledger, season: int, req: Request, h: Hash, i: nat)
    requires AllWrite(l, season, req.entries) && i < |req.entries|
    ensures var e := req.entries[i];
            VerdictOn(e, LiveRec(Committed(l, season, req, h), season, e.player)).Write? <==> CappedInPlace(l, season, e.player)
  {
    var e, after := req.entries[i], Committed(l, season, req, h);
    var live := LiveRec(l, season, e.player);
    assert e.player in PlayersOf(req.entries);
    assert VerdictOn(e, live).Write?;
    WrittenPlayer(l, season, req, e.player);
    RecomputeAfterCommit(l, season, req, h, e.player);
    WrittenRec(e, live);
    LiveTokens(l, after, season, e.player, NewHandicap(l, season, e.player)) by {
      CommittedPlayer(l, season, req, h, e.player);
    }
    hide RoundHC, LiveRec, NewHandicap, Committed, PlayersOf, AllWrite, MaxHC;
  }

  /** The tokens before and after differ exactly when the assigned cents do, or the reason no longer issues one. */
  lemma LiveTokens(l: Ledger, after: Ledger, season: int, player: int, value: real)
    requires Rostered(l, season, player) && after.seasons == l.seasons && after.racks == l.racks && player in after.players
    requires EntryOf(after, player) == EntryOf(l, player).(current := value)
    requires LiveRec(l, season, player).Some? && LiveRec(l, season, player).value.reason in {Capped, Actionable}
    requires LiveRec(l, season, player).value.recommended == Some(value)
    ensures var before, now := LiveRec(l, season, player).value, LiveRec(after, season, player);
            && now.Some? && now.value.entry.hold == before.entry.hold
            && (now.value.reason == Capped ==> (now.value.token == before.token <==> RoundHC(before.entry.current) == RoundHC(value)))
  {
    hide RoundHC, AccumOf, Reviews;
    var cfg := ConfigOf(season, l.seasons[season].rules).value;
    RecommendingAgain(EntryOf(l, player), AccumOf(l.racks, player), cfg);
    hide ImpliedHandicap, Cap, Exceeds;
  }

  /**
   Main result: the same entries under a new request ID pass once more exactly when every one of
   them was capped at the handicap its player already had: a stale request never applies a change twice.
   */
  lemma NeverAppliedTwice(l: Ledger, season: int, req: Request, h: Hash)
    requires AllWrite(l, season, req.entries)
    ensures AllWrite(Committed(l, season, req, h), season, req.entries) <==>
            forall i :: 0 <= i < |req.entries| ==> CappedInPlace(l, season, req.entries[i].player)
  {
    hide CappedInPlace, VerdictOn, LiveRec, Committed;
    forall i | 0 <= i < |req.entries|
      ensures VerdictOn(req.entries[i], LiveRec(Committed(l, season, req, h), season, req.entries[i].player)).Write?
              <==> CappedInPlace(l, season, req.entries[i].player)
    {
      VerdictOnceMore(l, season, req, h, i);
    }
  }
}
