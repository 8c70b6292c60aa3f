/**
 The write transaction as the program runs it, updating players one by one and appending history,
 proved to be an apply step. Neither the conditional update nor the unique key ever stops it.
 */
module HandicapStores {
  import opened Prelude
  import opened MatchRecords
  import opened HandicapRecs
  import opened HandicapApply

  predicate SameKey(row: HistoryRow, other: HistoryRow) {
    row.request == other.request && row.change.player == other.change.player
  }

  class HandicapStore {
    var seasons: map<int, Season>
    var players: map<int, Player>
    var racks: seq<RoundRow>
    var history: seq<HistoryRow>

    constructor (seasons: map<int, Season>, players: map<int, Player>, racks: seq<RoundRow>)
      ensures State() == Ledger(seasons, players, racks, [])
    {
      this.seasons, this.players, this.racks, this.history := seasons, players, racks, [];
    }

    function State(): Ledger
      reads this
    {
      Ledger(seasons, players, racks, history)
    }

    // ---- Store operations ------------------------------------------------------------------

    /** Set a handicap if the stored one still has the expected cents. */
    method UpdatePlayerHandicap(player: int, newHC: real, expected: real) returns (updated: bool)
      modifies this`players
      ensures updated <==> player in old(players) && Cents(old(players)[player].handicap) == Cents(expected)
      ensures players == if updated then old(players)[player := old(players)[player].(handicap := newHC)] else old(players)
    {
      if player !in players || Cents(players[player].handicap) != Cents(expected) {
        return false;
      }
      players := players[player := players[player].(handicap := newHC)];
      return true;
    }

    /** Append a history row; a second row for the same request and player is refused. */
    method InsertHandicapHistory(row: HistoryRow) returns (ok: bool)
      modifies this`history
      ensures ok <==> forall i :: 0 <= i < |old(history)| ==> !SameKey(old(history)[i], row)
      ensures history == if ok then old(history) + [row] else old(history)
    {
      for i := 0 to |history|
        invariant forall j :: 0 <= j < i ==> !SameKey(history[j], row)
        invariant history == old(history)
      {
        if SameKey(history[i], row) {
          return false;
        }
      }
      history := history + [row];
      return true;
    }

    /** The rows of a request, ordered by player. */
    method AppliedChangesByRequestID(id: string) returns (prior: seq<HistoryRow>)
      requires UniqueKeys(history)
      ensures ArePrior(prior, history, id)
    {
      prior := [];
      for n := 0 to |history|
        invariant forall i, j :: 0 <= i < j < |prior| ==> prior[i].change.player < prior[j].change.player
        invariant forall row :: row in prior <==> row in history[..n] && row.request == id
      {
        assert history[..n + 1] == history[..n] + [history[n]];
        var row := history[n];
        if row.request != id {
          continue;
        }
        var k := |prior|;
        while k > 0 && row.change.player < prior[k - 1].change.player
          invariant 0 <= k <= |prior|
          invariant forall j :: k <= j < |prior| ==> row.change.player < prior[j].change.player
        {
          k := k - 1;
        }
        forall r | r in prior
          ensures r.change.player != row.change.player
        {
          var i :| 0 <= i < n && history[i] == r;
          assert history[i].request != history[n].request || history[i].change.player != history[n].change.player;
        }
        InsertRow(prior, k, row);
        prior := prior[..k] + [row] + prior[k..];
      }
      assert history[..|history|] == history;
    }

    // ---- Recommendations -----------------------------------------------------------------------

    /** The roster with the players' current data. */
    method SeasonRoster(season: int) returns (roster: seq<RosterEntry>)
      requires season in seasons
      ensures forall e :: e in roster <==> Rostered(State(), season, e.player) && e == EntryOf(State(), e.player)
    {
      var ids := seasons[season].roster;
      roster := [];
      for i := 0 to |ids|
        invariant forall e :: e in roster <==> e.player in ids[..i] && e.player in players && e == EntryOf(State(), e.player)
      {
        assert ids[..i + 1] == ids[..i] + [ids[i]];
        if ids[i] in players {
          roster := roster + [EntryOf(State(), ids[i])];
        }
      }
      assert ids[..|ids|] == ids;
    }

    method Compute(season: int) returns (r: Result<seq<Rec>, ApplyError>)
      requires season in seasons
      ensures r.Err? <==> Reviews(seasons[season]) && ConfigOf(season, seasons[season].rules).None?
      ensures r.Err? ==> r.error == InvalidRule
      ensures r.Ok? ==> AreLive(r.value, State(), season)
    {
      var s := seasons[season];
      if s.rules.updateMethod.ManualReview? || s.rules.updateMethod.KickerAverage? || s.weeksClosed == 0 {
        return Ok([]);
      }
      var cfg := ConfigOf(season, s.rules);
      if cfg.None? {
        return Err(InvalidRule);
      }
      var roster := SeasonRoster(season);
      if |roster| == 0 {
        forall player
          ensures !Rostered(State(), season, player)
        {
          assert Rostered(State(), season, player) ==> EntryOf(State(), player) in roster;
        }
        return Ok([]);
      }
      var recs := BuildRecs(roster, racks, cfg.value);
      RecsAreLive(recs, roster, State(), season, cfg.value);
      return Ok(recs);
    }

    /** The recommendations by player. */
    method LiveMap(recs: seq<Rec>, season: int) returns (live: map<int, Rec>)
      requires season in seasons && AreLive(recs, State(), season)
      ensures forall player :: (if player in live then Some(live[player]) else None) == LiveRec(State(), season, player)
    {
      live := map[];
      hide LiveRec;
      for i := 0 to |recs|
        invariant forall player :: player in live ==> Some(live[player]) == LiveRec(State(), season, player)
        invariant forall j :: 0 <= j < i ==> recs[j].entry.player in live
      {
        assert recs[i] in recs;
        live := live[recs[i].entry.player := recs[i]];
      }
      forall player | LiveRec(State(), season, player).Some?
        ensures player in live
      {
        var rec := LiveRec(State(), season, player).value;
        LiveRecIsOwn(State(), season, player);
        var j :| 0 <= j < |recs| && recs[j] == rec;
      }
    }

    // ---- The checks -------------------------------------------------------------------------------

    method Judge(e: Entry, live: map<int, Rec>) returns (v: Verdict)
      ensures v == VerdictOn(e, if e.player in live then Some(live[e.player]) else None)
    {
      if e.player !in live {
        return Conflict(NotInRoster);
      }
      var rec := live[e.player];
      hide RoundHC;
      if rec.entry.hold {
        return Reject(OnAdminHold);
      }
      match rec.reason {
        case NoData => return Reject(HasNoData);
        case BelowThreshold => return Reject(IsBelowThreshold);
        case NoChange => return Reject(HasNoChange);
        case _ =>
      }
      if rec.recommended.None? {
        return Reject(NotEligible);
      }
      if rec.token != e.token {
        return Conflict(TokenMismatch);
      }
      if RoundHC(rec.entry.current) != RoundHC(e.expectedCurrent) {
        return Conflict(AssignedChanged);
      }
      if RoundHC(rec.recommended.value) != RoundHC(e.expectedRecommended) {
        return Conflict(RecommendedChanged);
      }
      return Write(rec);
    }

    /** All entries are judged before anything is written. */
    method JudgeAll(season: int, entries: seq<Entry>, live: map<int, Rec>)
      returns (rejections: seq<(int, RejectionCode)>, conflicts: seq<(int, ConflictCode)>, intents: seq<Rec>)
      requires forall player :: (if player in live then Some(live[player]) else None) == LiveRec(State(), season, player)
      ensures rejections == RejectionsOf(State(), season, entries) && conflicts == ConflictsOf(State(), season, entries)
      ensures rejections == [] && conflicts == [] ==>
                && |intents| == |entries|
                && forall i :: 0 <= i < |entries| ==>
                     VerdictOn(entries[i], LiveRec(State(), season, entries[i].player)) == Write(intents[i])
    {
      rejections, conflicts, intents := [], [], [];
      hide VerdictOn, LiveRec;
      for i := 0 to |entries|
        invariant rejections == RejectionsOf(State(), season, entries[..i]) && conflicts == ConflictsOf(State(), season, entries[..i])
        invariant rejections == [] && conflicts == [] ==>
                    && |intents| == i
                    && forall j :: 0 <= j < i ==>
                         VerdictOn(entries[j], LiveRec(State(), season, entries[j].player)) == Write(intents[j])
      {
        assert entries[..i + 1][..i] == entries[..i];
        var e := entries[i];
        var v := Judge(e, live);
        assert v == VerdictOn(e, LiveRec(State(), season, e.player));
        match v {
          case Reject(code) => rejections := rejections + [(e.player, code)];
          case Conflict(code) => conflicts := conflicts + [(e.player, code)];
          case Write(rec) => intents := intents + [rec];
        }
      }
      assert entries[..|entries|] == entries;
    }

    // ---- The writes ----------------------------------------------------------------------------------

    /** Write one intent: the player, then the history row. */
    method WriteIntent(season: int, id: string, h: Hash, e: Entry, rec: Rec) returns (error: Option<ApplyError>)
      requires rec.recommended.Some?
      modifies this`players, this`history
      ensures e.player in old(players) && old(players)[e.player].handicap == rec.entry.current
              && (forall i :: 0 <= i < |old(history)| ==> !(old(history)[i].request == id && old(history)[i].change.player == e.player)) ==>
                && error.None?
                && players == old(players)[e.player := old(players)[e.player].(handicap := rec.recommended.value)]
                && history == old(history) + [HistoryRow(id, h,
                     Change(e.player, rec.entry.name, rec.entry.current, rec.recommended.value), season, rec.token)]
    {
      hide Cents;
      var updated := UpdatePlayerHandicap(e.player, rec.recommended.value, rec.entry.current);
      if !updated {
        return Some(UpdateFailed);
      }
      var row := HistoryRow(id, h, Change(e.player, rec.entry.name, rec.entry.current, rec.recommended.value), season, rec.token);
      var inserted := InsertHandicapHistory(row);
      return if inserted then None else Some(InsertFailed);
    }

    /** Write every intent, in the order of the entries. */
    method WriteIntents(season: int, req: Request, h: Hash, intents: seq<Rec>) returns (error: Option<ApplyError>)
      requires !HasPrior(State(), req.id) && DistinctPlayers(req.entries) && |intents| == |req.entries|
      requires forall i :: 0 <= i < |intents| ==>
                 VerdictOn(req.entries[i], LiveRec(State(), season, req.entries[i].player)) == Write(intents[i])
      modifies this`players, this`history
      ensures error.None? && State() == Committed(old(State()), season, req, h)
    {
      ghost var l := State();
      ghost var rows := RowsFor(l, season, req.id, h, req.entries);
      hide VerdictOn, LiveRec, NewHandicap, PlayersOf, WrittenSoFar, RowFor, ChangeFor, HasPrior;
      NothingWritten(l, season, req.entries);
      for n := 0 to |intents|
        invariant seasons == l.seasons && racks == l.racks
        invariant history == l.history + rows[..n]
        invariant WrittenSoFar(l, season, req.entries[..n], players)
      {
        var e := req.entries[n];
        IntentIsLive(l, season, e, intents[n]);
        NoRowYet(l, season, req, h, n);
        StillStored(l, season, req.entries, n, players);
        RowIs(l, season, req.id, h, e, intents[n]);
        ghost var was := players;
        error := WriteIntent(season, req.id, h, e, intents[n]);
        OneMoreWritten(l, season, req.entries, n, was);
        assert rows[..n + 1] == rows[..n] + [rows[n]];
      }
      assert req.entries[..|intents|] == req.entries && rows[..|rows|] == rows;
      AllWritten(l, season, req.entries, players);
      return None;
    }

    /** Apply a request: the whole transaction. */
    method Apply(season: int, req: Request, busy: bool) returns (outcome: Outcome)
      requires UniqueKeys(history)
      modifies this`players, this`history
      ensures Applies(old(State()), season, req, busy, outcome, State())
      ensures UniqueKeys(history)
    {
      if season !in seasons {
        return Failed(LookupFailed);
      }
      if seasons[season].closed {
        return Failed(SeasonClosed);
      }
      var valid := ValidateApplyRequest(req);
      if !valid {
        return Failed(InvalidRequest);
      }
      assert DistinctPlayers(req.entries);
      hide ValidRequest, IsHash, AppliesHashed;
      var h := ComputeRequestHash(season, req.entries);
      if busy {
        return Failed(ConcurrentWrite);
      }
      outcome := RunTransaction(season, req, h);
    }

    method RunTransaction(season: int, req: Request, h: Hash) returns (outcome: Outcome)
      requires UniqueKeys(history) && season in seasons && DistinctPlayers(req.entries)
      modifies this`players, this`history
      ensures AppliesHashed(old(State()), season, req, h, outcome, State())
      ensures UniqueKeys(history)
    {
      hide ArePrior, UniqueKeys, AppliesFresh, DistinctPlayers, ReplayOutcome, HasPrior;
      var prior := AppliedChangesByRequestID(req.id);
      PriorWhen(prior, State(), req.id);
      if |prior| > 0 {
        outcome := Replay(prior, h, req.entries);
      } else {
        outcome := ApplyFresh(season, req, h);
      }
    }

    /** A request that has not been seen: judge every entry, then write all of them or none. */
    method ApplyFresh(season: int, req: Request, h: Hash) returns (outcome: Outcome)
      requires UniqueKeys(history) && season in seasons && DistinctPlayers(req.entries) && !HasPrior(State(), req.id)
      modifies this`players, this`history
      ensures AppliesFresh(old(State()), season, req, h, outcome, State())
      ensures UniqueKeys(history)
    {
      hide UniqueKeys, LiveRec, VerdictOn, AreLive, RejectionsOf, ConflictsOf, Reviews, ConfigOf, HasPrior, DistinctPlayers,
        Committed, ChangesFor, ChangesOf;
      var review := Compute(season);
      if review.Err? {
        return Failed(InvalidRule);
      }
      if seasons[season].rules.updateMethod != GameDiffAverage {
        return Failed(MethodNotApply);
      }
      var live := LiveMap(review.value, season);
      var rejections, conflicts, intents := JudgeAll(season, req.entries, live);
      if |rejections| > 0 {
        return Failed(Rejected(rejections));
      }
      if |conflicts| > 0 {
        return Failed(Conflicted(conflicts));
      }
      ghost var l := State();
      StillUnique(l, season, req, h);
      IntentChanges(l, season, req.entries, intents);
      var error := WriteIntents(season, req, h, intents);
      return Applied(ChangesOf(intents), false);
    }

    /** The outcome for a request that was seen before. */
    method Replay(prior: seq<HistoryRow>, h: Hash, entries: seq<Entry>) returns (outcome: Outcome)
      requires prior != []
      ensures outcome == ReplayOutcome(prior, h, entries)
    {
      for i := 0 to |prior|
        invariant forall j :: 0 <= j < i ==> prior[j].hash == prior[0].hash
      {
        if prior[i].hash != prior[0].hash {
          assert !SameHash(prior);
          return Failed(InconsistentHashes);
        }
      }
      if prior[0].hash != h {
        return Failed(KeyReused);
      }
      if !SamePlayers(prior, entries) {
        return Failed(HashCollision);
      }
      return Applied(PriorChanges(prior), true);
    }
  }

  function ChangesOf(intents: seq<Rec>): seq<Change> {
    seq(|intents|, i requires 0 <= i < |intents| =>
      var e := intents[i].entry;
      Change(e.player, e.name, e.current, if intents[i].recommended.Some? then intents[i].recommended.value else 0.0))
  }

  lemma LiveRecIsOwn(l: Ledger, season: int, player: int)
    requires LiveRec(l, season, player).Some?
    ensures LiveRec(l, season, player).value.entry == EntryOf(l, player)
  {
    hide AccumOf, ImpliedHandicap;
  }

  lemma IntentChanges(l: Ledger, season: int, entries: seq<Entry>, intents: seq<Rec>)
    requires |intents| == |entries|
    requires forall i :: 0 <= i < |entries| ==> VerdictOn(entries[i], LiveRec(l, season, entries[i].player)) == Write(intents[i])
    ensures ChangesOf(intents) == ChangesFor(l, season, entries)
  {
    hide VerdictOn, LiveRec, NewHandicap;
    forall i | 0 <= i < |entries|
      ensures ChangesOf(intents)[i] == ChangeFor(l, season, entries[i].player)
    {
      IntentIsLive(l, season, entries[i], intents[i]);
    }
  }

  lemma InsertRow(prior: seq<HistoryRow>, k: nat, row: HistoryRow)
    requires forall i, j :: 0 <= i < j < |prior| ==> prior[i].change.player < prior[j].change.player
    requires k <= |prior| && forall r :: r in prior ==> r.change.player != row.change.player
    requires k > 0 ==> prior[k - 1].change.player <= row.change.player
    requires forall j :: k <= j < |prior| ==> row.change.player < prior[j].change.player
    ensures var t := prior[..k] + [row] + prior[k..];
            && (forall i, j :: 0 <= i < j < |t| ==> t[i].change.player < t[j].change.player)
            && (forall r :: r in t <==> r in prior || r == row)
  {
    assert k > 0 ==> prior[k - 1] in prior;
    forall i | 0 <= i < k
      ensures prior[i].change.player < row.change.player
    {
      assert i < k - 1 ==> prior[i].change.player < prior[k - 1].change.player;
    }
    SpliceMembers(prior, k, row);
    SpliceRow(prior, k, row);
  }

  lemma SpliceRow(prior: seq<HistoryRow>, k: nat, row: HistoryRow)
    requires forall i, j :: 0 <= i < j < |prior| ==> prior[i].change.player < prior[j].change.player
    requires k <= |prior| && forall i :: 0 <= i < k ==> prior[i].change.player < row.change.player
    requires forall j :: k <= j < |prior| ==> row.change.player < prior[j].change.player
    ensures var t := prior[..k] + [row] + prior[k..];
            forall i, j :: 0 <= i < j < |t| ==> t[i].change.player < t[j].change.player
  {
    var t := prior[..k] + [row] + prior[k..];
    forall i, j | 0 <= i < j < |t|
      ensures t[i].change.player < t[j].change.player
    {
      assert t[i] == if i < k then prior[i] else if i == k then row else prior[i - 1];
      assert t[j] == if j < k then prior[j] else if j == k then row else prior[j - 1];
    }
  }

  /** The recommendations are those of the players who have a live one. */
  ghost predicate AreLive(recs: seq<Rec>, l: Ledger, season: int) {
    && (forall rec :: rec in recs ==> LiveRec(l, season, rec.entry.player) == Some(rec))
    && (forall player :: LiveRec(l, season, player).Some? ==> LiveRec(l, season, player).value in recs)
  }

  lemma RecsAreLive(recs: seq<Rec>, roster: seq<RosterEntry>, l: Ledger, season: int, cfg: Config)
    requires season in l.seasons && Reviews(l.seasons[season]) && ConfigOf(season, l.seasons[season].rules) == Some(cfg)
    requires forall e :: e in roster <==> Rostered(l, season, e.player) && e == EntryOf(l, e.player)
    requires |recs| == |roster|
    requires cfg.window >= 1 && forall i :: 0 <= i < |roster| ==> recs[i] == RecFor(roster[i], AccumOf(l.racks, roster[i].player), cfg)
    ensures AreLive(recs, l, season)
  {
    hide AccumOf, ImpliedHandicap;
    forall rec | rec in recs
      ensures LiveRec(l, season, rec.entry.player) == Some(rec)
    {
      var i :| 0 <= i < |recs| && recs[i] == rec;
      assert roster[i] in roster;
    }
    forall player | LiveRec(l, season, player).Some?
      ensures LiveRec(l, season, player).value in recs
    {
      assert EntryOf(l, player) in roster;
      var i :| 0 <= i < |roster| && roster[i] == EntryOf(l, player);
      assert recs[i] == LiveRec(l, season, player).value;
    }
  }

  lemma PriorWhen(prior: seq<HistoryRow>, l: Ledger, id: string)
    requires ArePrior(prior, l.history, id)
    ensures HasPrior(l, id) <==> prior != []
  {
    if HasPrior(l, id) {
      var i :| 0 <= i < |l.history| && l.history[i].request == id;
      assert l.history[i] in prior;
    }
    if prior != [] {
      assert prior[0] in prior;
    }
  }

  /** What an entry that passed is judged by: the player's stored data, and a recommendation. */
  lemma IntentIsLive(l: Ledger, season: int, e: Entry, rec: Rec)
    requires VerdictOn(e, LiveRec(l, season, e.player)) == Write(rec)
    ensures rec.recommended.Some? && e.player in l.players
    ensures rec.entry == EntryOf(l, e.player) && rec.token == e.token
    ensures NewHandicap(l, season, e.player) == rec.recommended.value
  {
    hide RoundHC, ImpliedHandicap, AccumOf;
  }

  /** The players after the given entries have been written. */
  ghost predicate WrittenSoFar(l: Ledger, season: int, entries: seq<Entry>, players: map<int, Player>) {
    && players.Keys == l.players.Keys
    && forall player :: player in players ==>
         players[player] == if player in PlayersOf(entries)
                            then l.players[player].(handicap := NewHandicap(l, season, player)) else l.players[player]
  }

  lemma NothingWritten(l: Ledger, season: int, entries: seq<Entry>)
    ensures WrittenSoFar(l, season, entries[..0], l.players)
  {
    hide NewHandicap;
  }

  /** The next player is as it was. */
  lemma StillStored(l: Ledger, season: int, entries: seq<Entry>, n: nat, players: map<int, Player>)
    requires n < |entries| && DistinctPlayers(entries) && WrittenSoFar(l, season, entries[..n], players)
    ensures entries[n].player in l.players ==> entries[n].player in players && players[entries[n].player] == l.players[entries[n].player]
  {
    PlayersOfStep(entries, n);
    hide PlayersOf, NewHandicap;
  }

  lemma OneMoreWritten(l: Ledger, season: int, entries: seq<Entry>, n: nat, players: map<int, Player>)
    requires n < |entries| && DistinctPlayers(entries) && WrittenSoFar(l, season, entries[..n], players)
    requires entries[n].player in players
    ensures var player := entries[n].player;
            WrittenSoFar(l, season, entries[..n + 1], players[player := players[player].(handicap := NewHandicap(l, season, player))])
  {
    PlayersOfStep(entries, n);
    hide PlayersOf, NewHandicap;
  }

  lemma AllWritten(l: Ledger, season: int, entries: seq<Entry>, players: map<int, Player>)
    requires WrittenSoFar(l, season, entries, players)
    ensures players == HandicapsAfter(l, season, entries)
  {
    hide PlayersOf, NewHandicap;
    forall player | player in players
      ensures players[player] == HandicapsAfter(l, season, entries)[player]
    {
    }
    SameMap(players, HandicapsAfter(l, season, entries));
  }

  /** The history row of an intent is the one of its entry. */
  lemma RowIs(l: Ledger, season: int, id: string, h: Hash, e: Entry, rec: Rec)
    requires VerdictOn(e, LiveRec(l, season, e.player)) == Write(rec)
    ensures rec.recommended.Some?
    ensures RowFor(l, season, id, h, e) ==
            HistoryRow(id, h, Change(e.player, rec.entry.name, rec.entry.current, rec.recommended.value), season, rec.token)
  {
    IntentIsLive(l, season, e, rec);
    hide VerdictOn, LiveRec, NewHandicap;
  }

  lemma PlayersOfStep(entries: seq<Entry>, n: nat)
    requires n < |entries| && DistinctPlayers(entries)
    ensures forall player :: player in PlayersOf(entries[..n + 1]) <==> player in PlayersOf(entries[..n]) || player == entries[n].player
    ensures entries[n].player !in PlayersOf(entries[..n])
  {
    forall player
      ensures player in PlayersOf(entries[..n + 1]) <==> player in PlayersOf(entries[..n]) || player == entries[n].player
    {
      if player in PlayersOf(entries[..n]) {
        var i :| 0 <= i < n && entries[..n][i].player == player;
        assert entries[..n + 1][i].player == player;
      }
      if player in PlayersOf(entries[..n + 1]) {
        var i :| 0 <= i < n + 1 && entries[..n + 1][i].player == player;
        assert i < n ==> entries[..n][i].player == player;
      }
      assert entries[..n + 1][n].player == entries[n].player;
    }
  }

  /** No row for the request and the next player has been written yet. */
  lemma NoRowYet(l: Ledger, season: int, req: Request, h: Hash, n: nat)
    requires !HasPrior(l, req.id) && DistinctPlayers(req.entries) && n < |req.entries|
    ensures var history := l.history + RowsFor(l, season, req.id, h, req.entries)[..n];
            forall i :: 0 <= i < |history| ==> !(history[i].request == req.id && history[i].change.player == req.entries[n].player)
  {
    hide NewHandicap;
    var rows := RowsFor(l, season, req.id, h, req.entries);
    var history := l.history + rows[..n];
    forall i | 0 <= i < |history|
      ensures !(history[i].request == req.id && history[i].change.player == req.entries[n].player)
    {
      if i < |l.history| {
        assert history[i] == l.history[i];
      } else {
        assert history[i] == rows[i - |l.history|];
      }
    }
  }

  lemma StillUnique(l: Ledger, season: int, req: Request, h: Hash)
    requires UniqueKeys(l.history) && !HasPrior(l, req.id) && DistinctPlayers(req.entries)
    ensures UniqueKeys(Committed(l, season, req, h).history)
  {
    hide NewHandicap;
    var rows := RowsFor(l, season, req.id, h, req.entries);
    var history := l.history + rows;
    forall i, j | 0 <= i < j < |history|
      ensures history[i].request != history[j].request || history[i].change.player != history[j].change.player
    {
      if j < |l.history| {
        assert history[i] == l.history[i] && history[j] == l.history[j];
      } else if i < |l.history| {
        assert history[i] == l.history[i] && history[j] == rows[j - |l.history|];
      } else {
        assert history[i] == rows[i - |l.history|] && history[j] == rows[j - |l.history|];
      }
    }
  }
}
