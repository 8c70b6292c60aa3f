/**
 What applying handicaps promises: all or nothing, replays over every run, and recommendations
 that stay put once applied.
 */
module HandicapTheorems {
  import opened Prelude
  import opened MatchRecords
  import opened HandicapRecs
  import opened HandicapApply

  // ---- All or nothing ------------------------------------------------------------------------

  /** The conditions under which an unseen request commits. */
  predicate Committable(l: Ledger, season: int, entries: seq<Entry>) {
    && season in l.seasons
    && l.seasons[season].rules.updateMethod == GameDiffAverage
    && !(Reviews(l.seasons[season]) && ConfigOf(season, l.seasons[season].rules).None?)
    && AllWrite(l, season, entries)
  }

  /**
   Main result: an apply changes the ledger exactly when the request passes the early checks, is
   unseen, and every single entry passes; then every player on it, and nobody else, gets the live
   recommendation, with one history row each. Otherwise nothing at all is written.
   */
  lemma AllOrNothing(l: Ledger, season: int, req: Request, busy: bool, outcome: Outcome, after: Ledger)
    requires Applies(l, season, req, busy, outcome, after)
    ensures var commits := EarlyError(l, season, req, busy).None? && !HasPrior(l, req.id) && Committable(l, season, req.entries);
            && (commits <==> outcome.Applied? && !outcome.replayed)
            && (commits ==>
                  && (exists h :: after == Committed(l, season, req, h))
                  && (forall player :: player in l.players ==>
                        after.players[player] == if player in PlayersOf(req.entries)
                                                 then l.players[player].(handicap := NewHandicap(l, season, player)) else l.players[player])
                  && outcome.changes == ChangesFor(l, season, req.entries))
            && (!commits ==> after == l)
  {
    if EarlyError(l, season, req, busy).None? {
      var h :| IsHash(h, season, req.entries) && AppliesHashed(l, season, req, h, outcome, after);
      if !HasPrior(l, req.id) {
        CommitsWhen(l, season, req.entries);
      }
      hide AllWrite, EarlyError, IsHash, Reviews, ConfigOf, HasPrior, ReplayOutcome, FreshError, Committable;
      if HasPrior(l, req.id) {
        ReplaysWriteNothing(l, season, req, h, outcome, after);
      }
    }
  }

  lemma ReplaysWriteNothing(l: Ledger, season: int, req: Request, h: Hash, outcome: Outcome, after: Ledger)
    requires season in l.seasons && HasPrior(l, req.id) && AppliesHashed(l, season, req, h, outcome, after)
    ensures after == l && (outcome.Applied? ==> outcome.replayed)
  {
  }

  lemma CommitsWhen(l: Ledger, season: int, entries: seq<Entry>)
    requires season in l.seasons
    ensures FreshError(l, season, entries).None? <==> Committable(l, season, entries)
  {
    AllWriteWhenNothingRaised(l, season, entries);
    hide AllWrite, RejectionsOf, ConflictsOf, Reviews, ConfigOf;
  }

  // ---- Request IDs ---------------------------------------------------------------------------

  /** A group of n hexadecimal digits from position i on. */
  predicate HexGroup(s: string, i: nat, n: nat) {
    i + n <= |s| && forall k :: i <= k < i + n ==> s[k] in "0123456789abcdefABCDEF"
  }

  lemma HexDigitIs(c: char)
    ensures HexDigit(c) <==> c in "0123456789abcdefABCDEF"
  {
  }

  /** IDs are groups of eight, four, four, four and twelve digits, with version four and a variant digit from 8 to b. */
  lemma IDsAreGrouped(s: string)
    ensures UUIDv4(s) <==>
            && |s| == 36
            && HexGroup(s, 0, 8) && s[8] == '-' && HexGroup(s, 9, 4) && s[13] == '-' && s[14] == '4' && HexGroup(s, 15, 3)
            && s[18] == '-' && s[19] in "89abAB" && HexGroup(s, 20, 3) && s[23] == '-' && HexGroup(s, 24, 12)
  {
    assert forall c :: c in "89abAB" <==> c in {'8', '9', 'a', 'b', 'A', 'B'};
    forall i | 0 <= i < |s|
      ensures HexDigit(s[i]) <==> s[i] in "0123456789abcdefABCDEF"
    {
      HexDigitIs(s[i]);
    }
    hide HexDigit;
  }

  // ---- Hashes are canonical --------------------------------------------------------------------

  /** Two entries for one player with one token, and the same expected values to the cent. */
  predicate SameEntry(e: Entry, f: Entry) {
    && e.player == f.player && e.token == f.token
    && Cents(e.expectedCurrent) == Cents(f.expectedCurrent) && Cents(e.expectedRecommended) == Cents(f.expectedRecommended)
  }

  predicate HasEntry(entries: seq<Entry>, e: Entry) {
    exists i :: 0 <= i < |entries| && SameEntry(entries[i], e)
  }

  /** Same entries, to the cent, in any order. */
  ghost predicate SameEntries(xs: seq<Entry>, ys: seq<Entry>) {
    && (forall i :: 0 <= i < |xs| ==> HasEntry(ys, xs[i]))
    && (forall i :: 0 <= i < |ys| ==> HasEntry(xs, ys[i]))
  }

  lemma SameEntryIsNormal(e: Entry, f: Entry)
    ensures SameEntry(e, f) <==> Normal(e) == Normal(f)
  {
    hide Cents;
  }

  lemma HasEntryIsListed(entries: seq<Entry>, e: Entry)
    ensures HasEntry(entries, e) <==> Lists(entries, Normal(e))
  {
    hide SameEntry, Normal;
    forall i | 0 <= i < |entries|
      ensures SameEntry(entries[i], e) <==> Normal(e) == Normal(entries[i])
    {
      SameEntryIsNormal(entries[i], e);
    }
  }

  lemma SameEntriesAreListed(xs: seq<Entry>, ys: seq<Entry>)
    ensures SameEntries(xs, ys) <==> forall x :: Lists(xs, x) <==> Lists(ys, x)
  {
    hide HasEntry, Normal;
    forall i | 0 <= i < |xs|
      ensures Lists(xs, Normal(xs[i])) && (HasEntry(ys, xs[i]) <==> Lists(ys, Normal(xs[i])))
    {
      HasEntryIsListed(ys, xs[i]);
    }
    forall i | 0 <= i < |ys|
      ensures Lists(ys, Normal(ys[i])) && (HasEntry(xs, ys[i]) <==> Lists(xs, Normal(ys[i])))
    {
      HasEntryIsListed(xs, ys[i]);
    }
  }

  /** What is hashed of an entry: player and token, and each expected value to the cent. */
  lemma HashHolds(h: Hash, season: int, entries: seq<Entry>, i: nat) returns (x: HashEntry)
    requires IsHash(h, season, entries) && i < |entries|
    ensures x in h.entries && x.player == entries[i].player && x.token == entries[i].token
    ensures x.expectedCurrent == RoundHC(entries[i].expectedCurrent) && x.expectedRecommended == RoundHC(entries[i].expectedRecommended)
  {
    hide RoundHC;
    x := Normal(entries[i]);
    assert Lists(entries, x);
  }

  lemma {:induction false} SortedIsUnique(xs: seq<HashEntry>, ys: seq<HashEntry>)
    requires ByPlayer(xs) && ByPlayer(ys) && forall x :: x in xs <==> x in ys
    ensures xs == ys
  {
    if xs == [] {
      SomeMember(ys);
    } else {
      var m, n := |xs| - 1, |ys| - 1;
      assert xs[m] in ys;
      assert ys[n] in xs;
      LastIsGreatest(xs, ys[n]);
      LastIsGreatest(ys, xs[m]);
      forall x
        ensures x in xs[..m] <==> x in ys[..n]
      {
        WithoutLast(xs, x);
        WithoutLast(ys, x);
      }
      SortedIsUnique(xs[..m], ys[..n]);
      assert xs == xs[..m] + [xs[m]] && ys == ys[..n] + [ys[n]];
    }
  }

  lemma LastIsGreatest(xs: seq<HashEntry>, x: HashEntry)
    requires ByPlayer(xs) && x in xs
    ensures x.player <= xs[|xs| - 1].player && (x.player == xs[|xs| - 1].player ==> x == xs[|xs| - 1])
  {
  }

  lemma WithoutLast(xs: seq<HashEntry>, x: HashEntry)
    requires ByPlayer(xs) && xs != []
    ensures x in xs[..|xs| - 1] <==> x in xs && x != xs[|xs| - 1]
  {
    assert xs == xs[..|xs| - 1] + [xs[|xs| - 1]];
  }

  /** Main result: two requests have the same hash exactly when season and entries are the same, in any order. */
  lemma HashIgnoresOrderOnly(h: Hash, k: Hash, season: int, season': int, xs: seq<Entry>, ys: seq<Entry>)
    requires IsHash(h, season, xs) && IsHash(k, season', ys)
    ensures h == k <==> season == season' && SameEntries(xs, ys)
  {
    SameEntriesAreListed(xs, ys);
    hide Lists, SameEntries;
    if season == season' && SameEntries(xs, ys) {
      forall x
        ensures x in h.entries <==> x in k.entries
      {
      }
      SortedIsUnique(h.entries, k.entries);
    }
    if h == k {
      forall x
        ensures Lists(xs, x) <==> Lists(ys, x)
      {
        assert x in h.entries <==> x in k.entries;
      }
    }
  }

  ghost predicate HashHas(h: Hash, player: int) {
    exists k :: 0 <= k < |h.entries| && h.entries[k].player == player
  }

  lemma HashPlayers(h: Hash, season: int, entries: seq<Entry>, player: int)
    requires IsHash(h, season, entries)
    ensures HashHas(h, player) <==> player in PlayersOf(entries)
  {
    hide RoundHC;
    if HashHas(h, player) {
      var k :| 0 <= k < |h.entries| && h.entries[k].player == player;
      assert h.entries[k] in h.entries;
      var i :| 0 <= i < |entries| && h.entries[k] == Normal(entries[i]);
    }
    if player in PlayersOf(entries) {
      var i :| 0 <= i < |entries| && entries[i].player == player;
      assert Normal(entries[i]) in h.entries;
      var k :| 0 <= k < |h.entries| && h.entries[k] == Normal(entries[i]);
    }
  }

  // ---- Runs --------------------------------------------------------------------------------------

  /**
   One step of the world. A change is anything that leaves the history alone: scores, rosters,
   rules, players, seasons. A merge of two players repoints the history of the one to the other.
   */
  datatype Step =
    | ApplyRequest(season: int, req: Request, busy: bool, outcome: Outcome)
    | ChangeData
    | MergePlayers(source: int, target: int)

  function RepointRow(row: HistoryRow, source: int, target: int): HistoryRow {
    if row.change.player == source then row.(change := row.change.(player := target)) else row
  }

  function Repointed(history: seq<HistoryRow>, source: int, target: int): (r: seq<HistoryRow>)
    ensures |r| == |history|
  {
    seq(|history|, i requires 0 <= i < |history| => RepointRow(history[i], source, target))
  }

  ghost predicate Leads(l: Ledger, s: Step, after: Ledger) {
    match s
    case ApplyRequest(season, req, busy, outcome) => Applies(l, season, req, busy, outcome, after)
    case ChangeData => after.history == l.history
    case MergePlayers(source, target) =>
      source != target && after.history == Repointed(l.history, source, target) && UniqueKeys(after.history)
  }

  ghost predicate IsRun(ls: seq<Ledger>, steps: seq<Step>) {
    |ls| == |steps| + 1 && forall i :: 0 <= i < |steps| ==> Leads(ls[i], steps[i], ls[i + 1])
  }

  predicate NoMerges(steps: seq<Step>) {
    forall i :: 0 <= i < |steps| ==> !steps[i].MergePlayers?
  }

  // ---- The history invariant ------------------------------------------------------------------------

  ghost predicate OneHash(history: seq<HistoryRow>) {
    forall i, j :: 0 <= i < |history| && 0 <= j < |history| && history[i].request == history[j].request ==> history[i].hash == history[j].hash
  }

  ghost predicate HasRow(history: seq<HistoryRow>, id: string, player: int) {
    exists j :: 0 <= j < |history| && history[j].request == id && history[j].change.player == player
  }

  /** The rows of a request are for exactly the players its hash names. */
  ghost predicate WholePlayerSets(history: seq<HistoryRow>) {
    forall i, player :: 0 <= i < |history| ==> (HasRow(history, history[i].request, player) <==> HashHas(history[i].hash, player))
  }

  ghost predicate Consistent(history: seq<HistoryRow>) {
    UniqueKeys(history) && OneHash(history)
  }

  lemma AppendKeepsConsistent(l: Ledger, season: int, req: Request, h: Hash)
    requires Consistent(l.history) && !HasPrior(l, req.id) && DistinctPlayers(req.entries)
    ensures Consistent(Committed(l, season, req, h).history)
  {
    hide NewHandicap;
    var rows := RowsFor(l, season, req.id, h, req.entries);
    var history := l.history + rows;
    forall i | 0 <= i < |history|
      ensures history[i] == if i < |l.history| then l.history[i] else rows[i - |l.history|]
    {
    }
    assert forall i :: 0 <= i < |l.history| ==> l.history[i].request != req.id;
    hide ChangeFor;
    KeysStayUnique(l.history, rows, req.entries, req.id);
  }

  lemma KeysStayUnique(history: seq<HistoryRow>, rows: seq<HistoryRow>, entries: seq<Entry>, id: string)
    requires UniqueKeys(history) && DistinctPlayers(entries) && |rows| == |entries|
    requires forall i :: 0 <= i < |history| ==> history[i].request != id
    requires forall i :: 0 <= i < |rows| ==> rows[i].request == id && rows[i].change.player == entries[i].player
    ensures UniqueKeys(history + rows)
  {
    var all := history + rows;
    forall i, j | 0 <= i < j < |all|
      ensures all[i].request != all[j].request || all[i].change.player != all[j].change.player
    {
      assert all[i] == if i < |history| then history[i] else rows[i - |history|];
      assert all[j] == if j < |history| then history[j] else rows[j - |history|];
    }
  }

  lemma AppendKeepsPlayerSets(l: Ledger, season: int, req: Request, h: Hash)
    requires WholePlayerSets(l.history) && !HasPrior(l, req.id) && IsHash(h, season, req.entries)
    ensures WholePlayerSets(Committed(l, season, req, h).history)
  {
    hide *;
    var rows := RowsFor(l, season, req.id, h, req.entries);
    var history := l.history + rows;
    CommittedHistory(l, season, req, h);
    RowsAreOf(l, season, req, h);
    forall i, player | 0 <= i < |history|
      ensures HasRow(history, history[i].request, player) <==> HashHas(history[i].hash, player)
    {
      assert history[i] == if i < |l.history| then l.history[i] else rows[i - |l.history|];
      if i < |l.history| {
        NotPriorAt(l, req.id, i);
        OldRows(l.history, rows, history[i].request, player);
        WholeAt(l.history, i, player);
      } else {
        HashPlayers(h, season, req.entries, player);
        NewRows(l, season, req, h, player);
      }
    }
    WholeIs(history);
  }

  lemma CommittedHistory(l: Ledger, season: int, req: Request, h: Hash)
    ensures Committed(l, season, req, h).history == l.history + RowsFor(l, season, req.id, h, req.entries)
  {
    hide RowsFor, HandicapsAfter;
  }

  lemma RowsAreOf(l: Ledger, season: int, req: Request, h: Hash)
    ensures var rows := RowsFor(l, season, req.id, h, req.entries);
            forall i :: 0 <= i < |rows| ==> rows[i].request == req.id && rows[i].hash == h
  {
    hide ChangeFor;
  }

  lemma NotPriorAt(l: Ledger, id: string, i: nat)
    requires !HasPrior(l, id) && i < |l.history|
    ensures l.history[i].request != id
  {
  }

  lemma WholeAt(history: seq<HistoryRow>, i: nat, player: int)
    requires WholePlayerSets(history) && i < |history|
    ensures HasRow(history, history[i].request, player) <==> HashHas(history[i].hash, player)
  {
    hide HasRow, HashHas;
  }

  lemma WholeIs(history: seq<HistoryRow>)
    requires forall i, player :: 0 <= i < |history| ==> (HasRow(history, history[i].request, player) <==> HashHas(history[i].hash, player))
    ensures WholePlayerSets(history)
  {
    hide HasRow, HashHas;
  }

  lemma OldRows(history: seq<HistoryRow>, rows: seq<HistoryRow>, id: string, player: int)
    requires forall i :: 0 <= i < |rows| ==> rows[i].request != id
    ensures HasRow(history + rows, id, player) <==> HasRow(history, id, player)
  {
    var all := history + rows;
    if HasRow(history, id, player) {
      var j :| 0 <= j < |history| && history[j].request == id && history[j].change.player == player;
      assert all[j] == history[j];
    }
    if HasRow(all, id, player) {
      var j :| 0 <= j < |all| && all[j].request == id && all[j].change.player == player;
      assert all[j] == if j < |history| then history[j] else rows[j - |history|];
    }
  }

  lemma NewRows(l: Ledger, season: int, req: Request, h: Hash, player: int)
    requires !HasPrior(l, req.id)
    ensures HasRow(Committed(l, season, req, h).history, req.id, player) <==> player in PlayersOf(req.entries)
  {
    hide NewHandicap;
    var rows := RowsFor(l, season, req.id, h, req.entries);
    var history := l.history + rows;
    forall j | 0 <= j < |history|
      ensures history[j] == if j < |l.history| then l.history[j] else rows[j - |l.history|]
    {
    }
    if HasRow(history, req.id, player) {
      var j :| 0 <= j < |history| && history[j].request == req.id && history[j].change.player == player;
      assert j >= |l.history|;
      assert req.entries[j - |l.history|].player == player;
    }
    if player in PlayersOf(req.entries) {
      var i :| 0 <= i < |req.entries| && req.entries[i].player == player;
      assert history[|l.history| + i] == rows[i];
    }
  }

  lemma RepointKeepsOneHash(history: seq<HistoryRow>, source: int, target: int)
    requires OneHash(history)
    ensures OneHash(Repointed(history, source, target))
  {
    var r := Repointed(history, source, target);
    forall i, j | 0 <= i < |r| && 0 <= j < |r| && r[i].request == r[j].request
      ensures r[i].hash == r[j].hash
    {
      assert history[i].request == history[j].request;
    }
  }

  /** How one apply changes the history: not at all, or by the rows of an unseen, valid request. */
  lemma ApplyAppends(l: Ledger, season: int, req: Request, busy: bool, outcome: Outcome, after: Ledger)
    requires Applies(l, season, req, busy, outcome, after)
    ensures after.history == l.history ||
            (!HasPrior(l, req.id) && DistinctPlayers(req.entries) &&
             exists h :: IsHash(h, season, req.entries) && after == Committed(l, season, req, h))
  {
    hide IsHash, FreshError, ReplayOutcome, HasPrior, Committed, UUIDv4;
    if EarlyError(l, season, req, busy).None? {
      var h :| IsHash(h, season, req.entries) && AppliesHashed(l, season, req, h, outcome, after);
    }
  }

  lemma StepKeepsConsistent(l: Ledger, s: Step, after: Ledger)
    requires Leads(l, s, after) && Consistent(l.history)
    ensures Consistent(after.history)
  {
    match s
    case ApplyRequest(season, req, busy, outcome) =>
      ApplyAppends(l, season, req, busy, outcome, after);
      hide Consistent, Applies, Committed, IsHash;
      if after.history != l.history {
        var h :| IsHash(h, season, req.entries) && after == Committed(l, season, req, h);
        AppendKeepsConsistent(l, season, req, h);
      }
    case ChangeData =>
    case MergePlayers(source, target) =>
      hide OneHash, UniqueKeys;
      RepointKeepsOneHash(l.history, source, target);
  }

  lemma StepKeepsPlayerSets(l: Ledger, s: Step, after: Ledger)
    requires Leads(l, s, after) && WholePlayerSets(l.history) && !s.MergePlayers?
    ensures WholePlayerSets(after.history)
  {
    match s
    case ApplyRequest(season, req, busy, outcome) =>
      ApplyAppends(l, season, req, busy, outcome, after);
      hide WholePlayerSets, Applies, Committed, IsHash;
      if after.history != l.history {
        var h :| IsHash(h, season, req.entries) && after == Committed(l, season, req, h);
        AppendKeepsPlayerSets(l, season, req, h);
      }
    case ChangeData =>
  }

  /** Main result: in every run, the rows sharing a request ID share one hash, and no key repeats. */
  lemma {:induction false} RunKeepsConsistent(ls: seq<Ledger>, steps: seq<Step>)
    requires IsRun(ls, steps) && Consistent(ls[0].history)
    ensures Consistent(ls[|steps|].history)
  {
    hide Leads, Consistent;
    if steps != [] {
      var n := |steps| - 1;
      RunPrefix(ls, steps);
      RunKeepsConsistent(ls[..n + 1], steps[..n]);
      StepKeepsConsistent(ls[n], steps[n], ls[n + 1]);
    }
  }

  /** Main result: in every run without merges, they are also for one whole player set. */
  lemma {:induction false} RunKeepsPlayerSets(ls: seq<Ledger>, steps: seq<Step>)
    requires IsRun(ls, steps) && NoMerges(steps) && WholePlayerSets(ls[0].history)
    ensures WholePlayerSets(ls[|steps|].history)
  {
    hide Leads, WholePlayerSets;
    if steps != [] {
      var n := |steps| - 1;
      RunPrefix(ls, steps);
      RunKeepsPlayerSets(ls[..n + 1], steps[..n]);
      StepKeepsPlayerSets(ls[n], steps[n], ls[n + 1]);
    }
  }

  lemma RunPrefix(ls: seq<Ledger>, steps: seq<Step>)
    requires IsRun(ls, steps) && steps != []
    ensures IsRun(ls[..|steps|], steps[..|steps| - 1]) && Leads(ls[|steps| - 1], steps[|steps| - 1], ls[|steps|])
    ensures NoMerges(steps) ==> NoMerges(steps[..|steps| - 1]) && !steps[|steps| - 1].MergePlayers?
  {
    hide Leads;
  }

  // ---- Branches that cannot be reached --------------------------------------------------------------

  lemma PriorSharesHash(prior: seq<HistoryRow>, history: seq<HistoryRow>, id: string)
    requires OneHash(history) && ArePrior(prior, history, id)
    ensures SameHash(prior)
  {
    forall i, j | 0 <= i < |prior| && 0 <= j < |prior|
      ensures prior[i].hash == prior[j].hash
    {
      assert prior[i] in prior && prior[j] in prior;
      var a :| 0 <= a < |history| && history[a] == prior[i];
      var b :| 0 <= b < |history| && history[b] == prior[j];
    }
  }

  lemma PriorHas(prior: seq<HistoryRow>, history: seq<HistoryRow>, id: string, player: int)
    requires ArePrior(prior, history, id)
    ensures player in (set i | 0 <= i < |prior| :: prior[i].change.player) <==> HasRow(history, id, player)
  {
    if i :| 0 <= i < |prior| && prior[i].change.player == player {
      assert prior[i] in prior;
      var j :| 0 <= j < |history| && history[j] == prior[i];
    }
    if HasRow(history, id, player) {
      var j :| 0 <= j < |history| && history[j].request == id && history[j].change.player == player;
      assert history[j] in prior;
      var i :| 0 <= i < |prior| && prior[i] == history[j];
    }
  }

  lemma PriorIsWhole(prior: seq<HistoryRow>, history: seq<HistoryRow>, id: string, h: Hash, season: int, entries: seq<Entry>)
    requires WholePlayerSets(history) && ArePrior(prior, history, id) && prior != [] && prior[0].hash == h && IsHash(h, season, entries)
    ensures SamePlayers(prior, entries)
  {
    hide IsHash, HashHas, HasRow;
    assert prior[0] in prior;
    var a :| 0 <= a < |history| && history[a] == prior[0];
    var players := set i | 0 <= i < |prior| :: prior[i].change.player;
    forall player
      ensures player in players <==> player in PlayersOf(entries)
    {
      PriorHas(prior, history, id, player);
      HashPlayers(h, season, entries, player);
      assert HasRow(history, history[a].request, player) <==> HashHas(history[a].hash, player);
    }
    SameElements(players, PlayersOf(entries));
  }

  /**
   Main result: on a consistent history the inconsistent-hash answer never comes, and where no
   merge has split a player set neither does the collision answer. The write phase never fails.
   */
  lemma UnreachableAnswers(l: Ledger, season: int, req: Request, busy: bool, outcome: Outcome, after: Ledger)
    requires Applies(l, season, req, busy, outcome, after) && Consistent(l.history)
    ensures outcome != Failed(InconsistentHashes) && outcome != Failed(UpdateFailed) && outcome != Failed(InsertFailed)
    ensures WholePlayerSets(l.history) ==> outcome != Failed(HashCollision)
  {
    hide UniqueKeys, OneHash, WholePlayerSets, IsHash, HasPrior, SameHash, SamePlayers, ArePrior;
    if EarlyError(l, season, req, busy).None? {
      var h :| IsHash(h, season, req.entries) && AppliesHashed(l, season, req, h, outcome, after);
      if HasPrior(l, req.id) {
        var prior: seq<HistoryRow> :| prior != [] && ArePrior(prior, l.history, req.id) && outcome == ReplayOutcome(prior, h, req.entries);
        PriorSharesHash(prior, l.history, req.id);
        if WholePlayerSets(l.history) && prior[0].hash == h {
          PriorIsWhole(prior, l.history, req.id, h, season, req.entries);
        }
      }
    }
  }
}
