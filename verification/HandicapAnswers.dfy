/** Every answer of an apply explained: what a commit leaves on record, and what each refusal says. */
module HandicapAnswers {
  import opened Prelude
  import opened MatchRecords
  import opened HandicapRecs
  import opened HandicapRacks
  import opened HandicapApply
  import opened HandicapTheorems
  import opened HandicapAfterwards

  // ---- The record of a commit ------------------------------------------------------------------

  /**
   Main result: a commit appends one history row an entry, with the request, its hash, the season,
   the token and the change; the change is from the handicap the player had to the one the player
   now has, and nothing else of the player and nothing else in the ledger moves.
   */
  lemma CommitIsOnRecord(l: Ledger, season: int, req: Request, busy: bool, outcome: Outcome, after: Ledger, i: nat)
    requires Applies(l, season, req, busy, outcome, after) && outcome.Applied? && !outcome.replayed && i < |req.entries|
    ensures |after.history| == |l.history| + |req.entries| == |l.history| + |outcome.changes|
    ensures after.history[..|l.history|] == l.history && after.seasons == l.seasons && after.racks == l.racks
    ensures var player, row, change := req.entries[i].player, after.history[|l.history| + i], outcome.changes[i];
            && row.request == req.id && IsHash(row.hash, season, req.entries) && row.season == season
            && row.token == req.entries[i].token && row.change == change && change.player == player
            && player in l.players && player in after.players
            && change.name == l.players[player].name && change.before == l.players[player].handicap
            && change.after == after.players[player].handicap
            && after.players[player] == l.players[player].(handicap := change.after)
  {
    AllOrNothing(l, season, req, busy, outcome, after);
    var h := HashCommitted(l, season, req, busy, outcome, after);
    EntryIsKnown(l, season, req, i);
    hide *;
    RowsAppended(l, season, req, h, i);
  }

  lemma HashCommitted(l: Ledger, season: int, req: Request, busy: bool, outcome: Outcome, after: Ledger) returns (h: Hash)
    requires Applies(l, season, req, busy, outcome, after) && outcome.Applied? && !outcome.replayed
    ensures IsHash(h, season, req.entries) && after == Committed(l, season, req, h) && outcome.changes == ChangesFor(l, season, req.entries)
  {
    h :| IsHash(h, season, req.entries) && AppliesHashed(l, season, req, h, outcome, after);
    hide IsHash, FreshError, Committed, ChangesFor, ArePrior, SameHash, SamePlayers, PriorChanges;
  }

  lemma EntryIsKnown(l: Ledger, season: int, req: Request, i: nat)
    requires AllWrite(l, season, req.entries) && i < |req.entries|
    ensures req.entries[i].player in l.players
  {
    var e := req.entries[i];
    assert VerdictOn(e, LiveRec(l, season, e.player)).Write?;
    hide AccumOf, RecFor;
  }

  lemma RowsAppended(l: Ledger, season: int, req: Request, h: Hash, i: nat)
    requires i < |req.entries| && req.entries[i].player in l.players
    ensures var after, changes := Committed(l, season, req, h), ChangesFor(l, season, req.entries);
            && |after.history| == |l.history| + |req.entries| && |changes| == |req.entries|
            && after.history[..|l.history|] == l.history && after.seasons == l.seasons && after.racks == l.racks
            && var player, row, change := req.entries[i].player, after.history[|l.history| + i], changes[i];
            && row.request == req.id && row.hash == h && row.season == season
            && row.token == req.entries[i].token && row.change == change && change.player == player
            && player in after.players
            && change.name == l.players[player].name && change.before == l.players[player].handicap
            && change.after == after.players[player].handicap
            && after.players[player] == l.players[player].(handicap := change.after)
  {
    hide NewHandicap;
    assert req.entries[i].player in PlayersOf(req.entries);
  }

  // ---- Live recommendations ---------------------------------------------------------------------

  /** What the window or the threshold is for a stored rule: fifteen if none is set. */
  predicate RuleIs(v: RuleValue<int>, n: nat) {
    && n >= 1 && (v.Unset? ==> n == 15) && (v.Number? ==> n == v.n) && !v.Malformed?
  }

  /** A malformed cap, and one that is not positive, count as none set. */
  predicate CapIs(v: RuleValue<real>, cap: real) {
    && (v.Number? && v.n > 0.0 ==> cap == v.n) && (!(v.Number? && v.n > 0.0) ==> cap == 4.5)
  }

  /**
   Main result: a player has a live recommendation exactly when on the roster of a season with closed
   weeks, an automatic method and usable rules; and what it is follows from the player's racks, the
   season's window, threshold and cap, and the handicap the player has.
   */
  lemma LiveExactlyWhen(l: Ledger, season: int, player: int)
    ensures LiveRec(l, season, player).Some? <==>
            && season in l.seasons && player in l.seasons[season].roster && player in l.players
            && l.seasons[season].weeksClosed > 0
            && l.seasons[season].rules.updateMethod !in {ManualReview, KickerAverage}
            && (exists n :: RuleIs(l.seasons[season].rules.window, n)) && (exists n :: RuleIs(l.seasons[season].rules.threshold, n))
    ensures LiveRec(l, season, player).Some? ==>
              forall window, threshold, cap ::
                && RuleIs(l.seasons[season].rules.window, window) && RuleIs(l.seasons[season].rules.threshold, threshold)
                && CapIs(l.seasons[season].rules.maxHC, cap) ==>
                  IsLive(LiveRec(l, season, player).value, l.players[player], RackSamples(l.racks, player), window, threshold, cap)
  {
    if season in l.seasons {
      var rules := l.seasons[season].rules;
      RuleValueIs(rules.window);
      RuleValueIs(rules.threshold);
      hide RuleIs, PositiveRule, AccumOf, RackSamples, RecFor, IsLive;
      if LiveRec(l, season, player).Some? {
        var cfg := ConfigOf(season, rules).value;
        RecIsLive(EntryOf(l, player), l.players[player], l.racks, cfg);
      }
    }
  }

  lemma RuleValueIs(v: RuleValue<int>)
    ensures PositiveRule(v).Some? ==> RuleIs(v, PositiveRule(v).value)
    ensures forall n: nat :: RuleIs(v, n) ==> PositiveRule(v) == Some(n)
  {
  }

  /** The recommendation for a player with these racks under these rules. */
  ghost predicate IsLive(rec: Rec, p: Player, samples: seq<Sample>, window: nat, threshold: nat, cap: real) {
    var recent := Min(window, |samples|);
    && rec.entry.current == p.handicap && rec.entry.hold == p.hold
    && (rec.recommended.Some? <==> samples != [] && !p.hold && recent >= threshold)
    && (rec.recommended.Some? && recent > 0 ==>
          var implied := RoundHC(SumOf(samples[..recent]) / recent as real);
          && rec.recommended.value ==
             (if implied > cap then RoundHC(cap) else if implied < -cap then RoundHC(-cap) else implied)
          && rec.change == Some(RoundHC(rec.recommended.value - p.handicap))
          && (rec.token.Issued? <==> implied > cap || implied < -cap || implied != RoundHC(p.handicap)))
  }

  lemma RecIsLive(e: RosterEntry, p: Player, racks: seq<RoundRow>, cfg: Config)
    requires cfg.window >= 1 && e.current == p.handicap && e.hold == p.hold
    ensures IsLive(RecFor(e, AccumOf(racks, e.player), cfg), p, RackSamples(racks, e.player), cfg.window, cfg.threshold, cfg.maxHC)
  {
    RecommendedExactlyWhen(e, racks, cfg);
    hide RecFor, AccumOf, RackSamples, SumOf, RoundHC;
    RecKeepsEntry(e, AccumOf(racks, e.player), cfg);
  }

  // ---- What refusals say ---------------------------------------------------------------------------

  /** The verdict on an entry says something true of its player. */
  lemma VerdictIsTrue(l: Ledger, season: int, e: Entry)
    ensures var live := LiveRec(l, season, e.player);
            match VerdictOn(e, live)
            case Conflict(NotInRoster) => live.None?
            case Reject(OnAdminHold) => live.Some? && l.players[e.player].hold
            case Reject(HasNoData) => live.Some? && RackSamples(l.racks, e.player) == []
            case Reject(IsBelowThreshold) => live.Some? && RackSamples(l.racks, e.player) != [] && live.value.recommended.None?
            case Reject(HasNoChange) => live.Some? && live.value.recommended == Some(RoundHC(l.players[e.player].handicap))
            case Reject(NotEligible) => false
            case Conflict(TokenMismatch) => live.Some? && live.value.token.Issued? && e.token != live.value.token
            case Conflict(AssignedChanged) => live.Some? && Cents(l.players[e.player].handicap) != Cents(e.expectedCurrent)
            case Conflict(RecommendedChanged) =>
              live.Some? && live.value.recommended.Some? && Cents(live.value.recommended.value) != Cents(e.expectedRecommended)
            case Write(rec) => live == Some(rec)
  {
    var live := LiveRec(l, season, e.player);
    if live.Some? {
      var cfg := ConfigOf(season, l.seasons[season].rules).value;
      RecommendedExactlyWhen(EntryOf(l, e.player), l.racks, cfg);
      IncludedAreSamples(l.racks, e.player);
      SameCents(l.players[e.player].handicap, e.expectedCurrent);
      if live.value.recommended.Some? {
        SameCents(live.value.recommended.value, e.expectedRecommended);
      }
    }
    hide AccumOf, RackSamples, ImpliedHandicap, RoundHC, Cents, SumOf, Reviews, ConfigOf;
  }

  ghost predicate RejectedIn(l: Ledger, season: int, entries: seq<Entry>, x: (int, RejectionCode)) {
    exists i :: 0 <= i < |entries| && entries[i].player == x.0 && VerdictOn(entries[i], LiveRec(l, season, x.0)) == Reject(x.1)
  }

  ghost predicate ConflictIn(l: Ledger, season: int, entries: seq<Entry>, x: (int, ConflictCode)) {
    exists i :: 0 <= i < |entries| && entries[i].player == x.0 && VerdictOn(entries[i], LiveRec(l, season, x.0)) == Conflict(x.1)
  }

  lemma {:induction false} AllAreListed(l: Ledger, season: int, entries: seq<Entry>)
    ensures forall x :: x in RejectionsOf(l, season, entries) <==> RejectedIn(l, season, entries, x)
    ensures forall x :: x in ConflictsOf(l, season, entries) <==> ConflictIn(l, season, entries, x)
  {
    hide VerdictOn, LiveRec;
    if entries != [] {
      var n := |entries| - 1;
      AllAreListed(l, season, entries[..n]);
      forall x
        ensures RejectedIn(l, season, entries, x) <==>
                RejectedIn(l, season, entries[..n], x)
                || (entries[n].player == x.0 && VerdictOn(entries[n], LiveRec(l, season, x.0)) == Reject(x.1))
      {
        assert forall i :: 0 <= i < n ==> entries[..n][i] == entries[i];
      }
      forall x
        ensures ConflictIn(l, season, entries, x) <==>
                ConflictIn(l, season, entries[..n], x)
                || (entries[n].player == x.0 && VerdictOn(entries[n], LiveRec(l, season, x.0)) == Conflict(x.1))
      {
        assert forall i :: 0 <= i < n ==> entries[..n][i] == entries[i];
      }
      hide RejectedIn, ConflictIn;
    }
  }

  /**
   Main result: each failure is answered exactly when its reason is the first that holds, and a
   refusal lists every entry rejected, or if none is, every entry in conflict.
   */
  lemma FailsExactlyWhen(l: Ledger, season: int, req: Request, busy: bool, outcome: Outcome, after: Ledger)
    requires Applies(l, season, req, busy, outcome, after)
    ensures outcome == Failed(LookupFailed) <==> season !in l.seasons
    ensures season in l.seasons ==>
              && var closed, invalid := l.seasons[season].closed, !ValidRequest(req);
              && (outcome == Failed(SeasonClosed) <==> closed)
              && (outcome == Failed(InvalidRequest) <==> !closed && invalid)
              && (outcome == Failed(ConcurrentWrite) <==> !closed && !invalid && busy)
    ensures outcome.Failed? && outcome.error.Rejected? ==>
              && !HasPrior(l, req.id) && outcome.error.rejections != []
              && forall x :: x in outcome.error.rejections <==> RejectedIn(l, season, req.entries, x)
    ensures outcome.Failed? && outcome.error.Conflicted? ==>
              && !HasPrior(l, req.id) && outcome.error.conflicts != []
              && (forall x :: x in outcome.error.conflicts <==> ConflictIn(l, season, req.entries, x))
              && forall x :: !RejectedIn(l, season, req.entries, x)
  {
    hide ValidRequest, VerdictOn, LiveRec, RejectionsOf, ConflictsOf, RejectedIn, ConflictIn, ArePrior, IsHash, Reviews, ConfigOf;
    AllAreListed(l, season, req.entries);
  }
}
