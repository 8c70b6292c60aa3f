/**
 Resubmitting a request: a replay of what was committed, whatever happened in between, and how a
 merge of players, a closed season or a new request ID changes the answer.
 */
module HandicapReplay {
  import opened Prelude
  import opened MatchRecords
  import opened HandicapRecs
  import opened HandicapApply
  import opened HandicapTheorems

  // ---- Replays -----------------------------------------------------------------------------

  /** The same request sent again: same ID, same entries to the cent, in any order. */
  ghost predicate Resubmits(req: Request, again: Request) {
    again.id == req.id && DistinctPlayers(again.entries) && SameEntries(req.entries, again.entries)
  }

  lemma ResubmissionIsValid(req: Request, again: Request)
    requires ValidRequest(req) && Resubmits(req, again)
    ensures ValidRequest(again)
  {
    hide Cents, UUIDv4;
    assert HasEntry(again.entries, req.entries[0]);
    forall i | 0 <= i < |again.entries|
      ensures again.entries[i].token != NoToken
    {
      assert HasEntry(req.entries, again.entries[i]);
    }
  }

  ghost predicate SameRowsOf(xs: seq<HistoryRow>, ys: seq<HistoryRow>, id: string) {
    forall row: HistoryRow :: row.request == id ==> (row in xs <==> row in ys)
  }

  lemma StepKeepsRowsOf(l: Ledger, s: Step, after: Ledger, id: string)
    requires Leads(l, s, after) && !s.MergePlayers? && HasPrior(l, id)
    ensures SameRowsOf(l.history, after.history, id) && HasPrior(after, id)
  {
    match s
    case ApplyRequest(season, req, busy, outcome) =>
      ApplyAppends(l, season, req, busy, outcome, after);
      hide Applies, IsHash;
      if after.history != l.history {
        var h :| IsHash(h, season, req.entries) && after == Committed(l, season, req, h);
        AppendedAreOthers(l, season, req, h, id);
      }
    case ChangeData =>
  }

  lemma AppendedAreOthers(l: Ledger, season: int, req: Request, h: Hash, id: string)
    requires HasPrior(l, id) && !HasPrior(l, req.id)
    ensures SameRowsOf(l.history, Committed(l, season, req, h).history, id) && HasPrior(Committed(l, season, req, h), id)
  {
    hide NewHandicap;
    var rows := RowsFor(l, season, req.id, h, req.entries);
    var i :| 0 <= i < |l.history| && l.history[i].request == id;
    assert (l.history + rows)[i] == l.history[i];
    assert forall j :: 0 <= j < |rows| ==> rows[j].request == req.id;
    forall row: HistoryRow | row.request == id
      ensures row in l.history + rows <==> row in l.history
    {
    }
  }

  /** Once a request has rows, no run without merges adds to them or takes any away. */
  lemma {:induction false} RunKeepsRowsOf(ls: seq<Ledger>, steps: seq<Step>, id: string)
    requires IsRun(ls, steps) && NoMerges(steps) && HasPrior(ls[0], id)
    ensures SameRowsOf(ls[0].history, ls[|steps|].history, id) && HasPrior(ls[|steps|], id)
  {
    hide Leads, HasPrior;
    if steps != [] {
      var n := |steps| - 1;
      RunPrefix(ls, steps);
      RunKeepsRowsOf(ls[..n + 1], steps[..n], id);
      StepKeepsRowsOf(ls[n], steps[n], ls[n + 1], id);
    }
  }

  lemma CommittedRows(l: Ledger, season: int, req: Request, h: Hash)
    requires !HasPrior(l, req.id) && req.entries != []
    ensures HasPrior(Committed(l, season, req, h), req.id)
    ensures forall row: HistoryRow :: row.request == req.id ==>
              (row in Committed(l, season, req, h).history <==> row in RowsFor(l, season, req.id, h, req.entries))
  {
    hide NewHandicap;
    var rows := RowsFor(l, season, req.id, h, req.entries);
    assert (l.history + rows)[|l.history|] == rows[0];
    forall row: HistoryRow | row.request == req.id
      ensures row in l.history + rows <==> row in rows
    {
    }
  }

  /** What a commit leaves for its request: exactly its rows, with its hash. */
  ghost predicate RowsStand(l: Ledger, id: string, rows: seq<HistoryRow>) {
    HasPrior(l, id) && forall row: HistoryRow :: row.request == id ==> (row in l.history <==> row in rows)
  }

  /** The rows found for a request are the rows it committed, in order of players. */
  lemma PriorIsTheCommit(l: Ledger, prior: seq<HistoryRow>, origin: Ledger, season: int, req: Request, h: Hash)
    requires RowsStand(l, req.id, RowsFor(origin, season, req.id, h, req.entries)) && ArePrior(prior, l.history, req.id)
    requires DistinctPlayers(req.entries)
    ensures multiset(PriorChanges(prior)) == multiset(ChangesFor(origin, season, req.entries))
    ensures forall i :: 0 <= i < |prior| ==> prior[i].hash == h
  {
    hide ChangeFor, HasPrior;
    var rows, changes := RowsFor(origin, season, req.id, h, req.entries), ChangesFor(origin, season, req.entries);
    assert forall i :: 0 <= i < |rows| ==> rows[i].change == changes[i] && rows[i].hash == h && rows[i].request == req.id;
    forall row
      ensures row in prior <==> row in rows
    {
    }
    assert forall i :: 0 <= i < |prior| ==> prior[i] in prior;
    SameChanges(prior, rows, changes);
    SameChangesBack(prior, rows, changes);
    DistinctChanges(prior);
    ChangesAreDistinct(origin, season, req.entries);
    SameDistinctElements(PriorChanges(prior), changes);
  }

  lemma SameChanges(prior: seq<HistoryRow>, rows: seq<HistoryRow>, changes: seq<Change>)
    requires forall row :: row in prior ==> row in rows
    requires |rows| == |changes| && forall i :: 0 <= i < |rows| ==> rows[i].change == changes[i]
    ensures forall c :: c in PriorChanges(prior) ==> c in changes
  {
    forall c | c in PriorChanges(prior)
      ensures c in changes
    {
      var i :| 0 <= i < |prior| && PriorChanges(prior)[i] == c;
      assert prior[i] in rows;
      var j :| 0 <= j < |rows| && rows[j] == prior[i];
      assert changes[j] == c;
    }
  }

  lemma SameChangesBack(prior: seq<HistoryRow>, rows: seq<HistoryRow>, changes: seq<Change>)
    requires forall row :: row in rows ==> row in prior
    requires |rows| == |changes| && forall i :: 0 <= i < |rows| ==> rows[i].change == changes[i]
    ensures forall c :: c in changes ==> c in PriorChanges(prior)
  {
    forall c | c in changes
      ensures c in PriorChanges(prior)
    {
      var j :| 0 <= j < |rows| && changes[j] == c;
      assert rows[j] in prior;
      var i :| 0 <= i < |prior| && prior[i] == rows[j];
      assert PriorChanges(prior)[i] == c;
    }
  }

  lemma DistinctChanges(prior: seq<HistoryRow>)
    requires forall i, j :: 0 <= i < j < |prior| ==> prior[i].change.player < prior[j].change.player
    ensures Distinct(PriorChanges(prior))
  {
  }

  lemma ChangesAreDistinct(l: Ledger, season: int, entries: seq<Entry>)
    requires DistinctPlayers(entries)
    ensures Distinct(ChangesFor(l, season, entries))
  {
    hide NewHandicap;
    var changes := ChangesFor(l, season, entries);
    forall i, j | 0 <= i < j < |changes|
      ensures changes[i] != changes[j]
    {
      assert changes[i].player == entries[i].player && changes[j].player == entries[j].player;
    }
  }

  /** A later request under a committed ID, answered at a ledger where the commit's rows stand. */
  lemma AnswerOverCommit(origin: Ledger, season: int, req: Request, h: Hash, l: Ledger, season': int, again: Request, busy: bool,
                         outcome: Outcome, after: Ledger)
    requires ValidRequest(req) && IsHash(h, season, req.entries)
    requires RowsStand(l, req.id, RowsFor(origin, season, req.id, h, req.entries)) && WholePlayerSets(l.history)
    requires again.id == req.id && Applies(l, season', again, busy, outcome, after)
    ensures after == l
    ensures EarlyError(l, season', again, busy).Some? ==> outcome == Failed(EarlyError(l, season', again, busy).value)
    ensures EarlyError(l, season', again, busy).None? ==>
              if season' == season && SameEntries(req.entries, again.entries)
              then outcome.Applied? && outcome.replayed && multiset(outcome.changes) == multiset(ChangesFor(origin, season, req.entries))
              else outcome == Failed(KeyReused)
  {
    hide IsHash, HasPrior, WholePlayerSets, ArePrior, SamePlayers, SameEntries, UUIDv4, RowsFor, ChangesFor, PriorChanges, AppliesFresh, Lists;
    if EarlyError(l, season', again, busy).None? {
      var k :| IsHash(k, season', again.entries) && AppliesHashed(l, season', again, k, outcome, after);
      var prior: seq<HistoryRow> :| prior != [] && ArePrior(prior, l.history, again.id)
                                    && outcome == ReplayOutcome(prior, k, again.entries) && after == l;
      PriorIsTheCommit(l, prior, origin, season, req, h);
      HashIgnoresOrderOnly(h, k, season, season', req.entries, again.entries);
      if h == k {
        PriorIsWhole(prior, l.history, again.id, k, season', again.entries);
      }
    }
  }

  /** The rows of a fresh commit stand at the end of every run without merges. */
  lemma CommitStands(origin: Ledger, season: int, req: Request, h: Hash, ls: seq<Ledger>, steps: seq<Step>)
    requires !HasPrior(origin, req.id) && ValidRequest(req) && IsHash(h, season, req.entries)
    requires IsRun(ls, steps) && NoMerges(steps) && ls[0] == Committed(origin, season, req, h)
    ensures RowsStand(ls[|steps|], req.id, RowsFor(origin, season, req.id, h, req.entries))
  {
    CommittedRows(origin, season, req, h);
    hide Leads, HasPrior, Committed, RowsFor, UUIDv4, IsHash;
    RunKeepsRowsOf(ls, steps, req.id);
  }

  /**
   Main result: after a request has committed, whatever applies and other changes follow, sending
   it again with its entries in any order writes nothing and returns the same set of changes marked
   replayed, exactly when the season still exists and is open and the write lock is free. With
   other entries or another season, the answer is that its key was used before.
   */
  lemma ReplayAfterAnyRun(l: Ledger, season: int, req: Request, outcome: Outcome, ls: seq<Ledger>, steps: seq<Step>,
                          again: Request, busy: bool, outcome': Outcome, after: Ledger)
    requires WholePlayerSets(l.history)
    requires IsRun(ls, steps) && NoMerges(steps)
    requires Applies(l, season, req, false, outcome, ls[0]) && outcome.Applied? && !outcome.replayed
    requires Resubmits(req, again) && Applies(ls[|steps|], season, again, busy, outcome', after)
    ensures after == ls[|steps|]
    ensures outcome'.Applied? <==>
            season in ls[|steps|].seasons && !ls[|steps|].seasons[season].closed && !busy
    ensures outcome'.Applied? ==> outcome'.replayed && multiset(outcome'.changes) == multiset(outcome.changes)
  {
    var h := CommitOf(l, season, req, outcome, ls[0]);
    hide Applies, IsRun, IsHash, HasPrior, Committed, WholePlayerSets, RowsFor, SameEntries, ChangesFor, UUIDv4, Lists;
    CommitStands(l, season, req, h, ls, steps);
    CommitKeepsSets(l, season, req, h);
    RunKeepsPlayerSets(ls, steps);
    ResubmissionIsValid(req, again);
    AnswerOverCommit(l, season, req, h, ls[|steps|], season, again, busy, outcome', after);
    hide ValidRequest;
  }

  lemma CommitKeepsSets(l: Ledger, season: int, req: Request, h: Hash)
    requires WholePlayerSets(l.history) && !HasPrior(l, req.id) && IsHash(h, season, req.entries)
    ensures WholePlayerSets(Committed(l, season, req, h).history)
  {
    hide *;
    AppendKeepsPlayerSets(l, season, req, h);
  }

  lemma CommitOf(l: Ledger, season: int, req: Request, outcome: Outcome, after: Ledger) returns (h: Hash)
    requires Applies(l, season, req, false, outcome, after) && outcome.Applied? && !outcome.replayed
    ensures IsHash(h, season, req.entries) && !HasPrior(l, req.id) && ValidRequest(req)
    ensures after == Committed(l, season, req, h) && outcome.changes == ChangesFor(l, season, req.entries)
  {
    hide IsHash, HasPrior, ReplayOutcome, FreshError, ValidRequest, Committed, ChangesFor;
    h :| IsHash(h, season, req.entries) && AppliesHashed(l, season, req, h, outcome, after);
    if HasPrior(l, req.id) {
      var prior: seq<HistoryRow> :| prior != [] && ArePrior(prior, l.history, req.id) && outcome == ReplayOutcome(prior, h, req.entries);
      ReplaysSayReplayed(prior, h, req.entries);
      assert false;
    }
  }

  lemma ReplaysSayReplayed(prior: seq<HistoryRow>, h: Hash, entries: seq<Entry>)
    requires prior != []
    ensures ReplayOutcome(prior, h, entries).Applied? ==> ReplayOutcome(prior, h, entries).replayed
  {
  }

  // ---- Merges ----------------------------------------------------------------------------------

  /** The players of a request after a merge: the source is renamed. */
  lemma MergedRows(history: seq<HistoryRow>, source: int, target: int, id: string, player: int)
    requires source != target
    ensures HasRow(Repointed(history, source, target), id, player) <==>
            if player == source then false
            else HasRow(history, id, player) || (player == target && HasRow(history, id, source))
  {
    var merged := Repointed(history, source, target);
    if HasRow(merged, id, player) {
      var j :| 0 <= j < |merged| && merged[j].request == id && merged[j].change.player == player;
      assert HasRow(history, id, history[j].change.player);
    }
    if player != source && HasRow(history, id, player) {
      var j :| 0 <= j < |history| && history[j].request == id && history[j].change.player == player;
      assert merged[j].change.player == player && merged[j].request == id;
    }
    if player == target && HasRow(history, id, source) {
      var j :| 0 <= j < |history| && history[j].request == id && history[j].change.player == source;
      assert merged[j].change.player == target && merged[j].request == id;
    }
  }

  lemma MergedPrior(history: seq<HistoryRow>, prior: seq<HistoryRow>, source: int, target: int, id: string, h: Hash)
    requires forall i :: 0 <= i < |history| && history[i].request == id ==> history[i].hash == h
    requires ArePrior(prior, Repointed(history, source, target), id)
    ensures forall i :: 0 <= i < |prior| ==> prior[i].hash == h
  {
    var merged := Repointed(history, source, target);
    forall i | 0 <= i < |prior|
      ensures prior[i].hash == h
    {
      assert prior[i] in prior;
      var j :| 0 <= j < |merged| && merged[j] == prior[i];
      assert history[j].request == id;
    }
  }

  /**
   Main result: one merge between a commit and its resubmission leaves the replay intact exactly
   when the player merged away is not on the request; otherwise it is taken for a hash collision.
   */
  lemma ReplayAfterMerge(l: Ledger, season: int, req: Request, h: Hash, source: int, target: int, merged: Ledger,
                         again: Request, outcome: Outcome, after: Ledger)
    requires Consistent(l.history) && WholePlayerSets(l.history) && HasPrior(l, req.id) && IsHash(h, season, req.entries)
    requires forall i :: 0 <= i < |l.history| && l.history[i].request == req.id ==> l.history[i].hash == h
    requires Leads(l, MergePlayers(source, target), merged)
    requires Resubmits(req, again) && EarlyError(merged, season, again, false).None?
    requires Applies(merged, season, again, false, outcome, after)
    ensures after == merged
    ensures source in PlayersOf(req.entries) ==> outcome == Failed(HashCollision)
    ensures source !in PlayersOf(req.entries) ==> outcome.Applied? && outcome.replayed
  {
    hide IsHash, ArePrior, SamePlayers, UUIDv4, AppliesFresh, Lists, HasRow, HashHas, UniqueKeys, OneHash, PlayersOf, PriorChanges;
    var k :| IsHash(k, season, again.entries) && AppliesHashed(merged, season, again, k, outcome, after);
    HashIgnoresOrderOnly(h, k, season, season, req.entries, again.entries);
    MergeKeepsPrior(l, merged, source, target, req.id);
    var prior: seq<HistoryRow> :| prior != [] && ArePrior(prior, merged.history, again.id)
                                  && outcome == ReplayOutcome(prior, k, again.entries) && after == merged;
    MergedPrior(l.history, prior, source, target, req.id, h);
    MergedPlayers(l, season, req, h, source, target, prior, again, k);
  }

  lemma MergeKeepsPrior(l: Ledger, merged: Ledger, source: int, target: int, id: string)
    requires HasPrior(l, id) && merged.history == Repointed(l.history, source, target)
    ensures HasPrior(merged, id)
  {
    var i :| 0 <= i < |l.history| && l.history[i].request == id;
    assert merged.history[i].request == id;
  }

  /** Whether the repointed rows still have the players of the request. */
  lemma MergedPlayers(l: Ledger, season: int, req: Request, h: Hash, source: int, target: int, prior: seq<HistoryRow>, again: Request, k: Hash)
    requires source != target && UniqueKeys(Repointed(l.history, source, target))
    requires WholePlayerSets(l.history) && HasPrior(l, req.id)
    requires IsHash(h, season, req.entries) && IsHash(k, season, again.entries) && k == h
    requires forall i :: 0 <= i < |l.history| && l.history[i].request == req.id ==> l.history[i].hash == h
    requires ArePrior(prior, Repointed(l.history, source, target), req.id)
    ensures SamePlayers(prior, again.entries) <==> source !in PlayersOf(req.entries)
  {
    hide IsHash, HashHas, HasRow, UniqueKeys, ArePrior, PlayersOf;
    var i :| 0 <= i < |l.history| && l.history[i].request == req.id;
    var players := set i | 0 <= i < |prior| :: prior[i].change.player;
    forall player
      ensures HasRow(l.history, req.id, player) <==> player in PlayersOf(req.entries)
      ensures player in PlayersOf(again.entries) <==> player in PlayersOf(req.entries)
      ensures player in players <==> HasRow(Repointed(l.history, source, target), req.id, player)
    {
      HashPlayers(h, season, req.entries, player);
      HashPlayers(k, season, again.entries, player);
      PriorHas(prior, Repointed(l.history, source, target), req.id, player);
      assert HasRow(l.history, l.history[i].request, player) <==> HashHas(l.history[i].hash, player);
    }
    MergedRows(l.history, source, target, req.id, source);
    if source !in PlayersOf(req.entries) {
      forall player
        ensures player in players <==> player in PlayersOf(again.entries)
      {
        MergedRows(l.history, source, target, req.id, player);
      }
      SameElements(players, PlayersOf(again.entries));
    }
  }
}
