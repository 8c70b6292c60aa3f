/**
 Applying handicap recommendations: one serial write transaction that either replays an earlier
 commit of the same request or checks every entry against the live recommendations and then
 writes all of them or none.
 */
module HandicapApply {
  import opened Prelude
  import opened MatchRecords
  import opened HandicapRecs

  // ---- The data ------------------------------------------------------------------------------

  datatype Method = ManualReview | KickerAverage | GameDiffAverage | OtherMethod

  /** A rule value as stored: missing or blank, not a number, or a number. */
  datatype RuleValue<T> = Unset | Malformed | Number(n: T)

  datatype Rules = Rules(updateMethod: Method, window: RuleValue<int>, threshold: RuleValue<int>, maxHC: RuleValue<real>)

  datatype Season = Season(closed: bool, weeksClosed: nat, rules: Rules, roster: seq<int>)

  datatype Player = Player(name: string, handicap: real, hold: bool)

  datatype Entry = Entry(player: int, expectedCurrent: real, expectedRecommended: real, token: Token)

  datatype Request = Request(id: string, entries: seq<Entry>)

  datatype HashEntry = HashEntry(player: int, expectedCurrent: real, expectedRecommended: real, token: Token)

  /** Stands for the hash of its canonical contents. */
  datatype Hash = Hash(season: int, entries: seq<HashEntry>)

  datatype Change = Change(player: int, name: string, before: real, after: real)

  datatype HistoryRow = HistoryRow(request: string, hash: Hash, change: Change, season: int, token: Token)

  /** Everything an apply reads and writes. Racks are the eligible ones, most recent first. */
  datatype Ledger = Ledger(seasons: map<int, Season>, players: map<int, Player>, racks: seq<RoundRow>, history: seq<HistoryRow>)

  datatype RejectionCode = HasNoData | OnAdminHold | IsBelowThreshold | HasNoChange | NotEligible

  datatype ConflictCode = NotInRoster | TokenMismatch | AssignedChanged | RecommendedChanged

  datatype Verdict = Write(rec: Rec) | Reject(rejection: RejectionCode) | Conflict(conflict: ConflictCode)

  datatype ApplyError =
    | LookupFailed | SeasonClosed | InvalidRequest | ConcurrentWrite
    | InconsistentHashes | KeyReused | HashCollision
    | InvalidRule | MethodNotApply | UpdateFailed | InsertFailed
    | Rejected(rejections: seq<(int, RejectionCode)>)
    | Conflicted(conflicts: seq<(int, ConflictCode)>)

  datatype Outcome = Applied(changes: seq<Change>, replayed: bool) | Failed(error: ApplyError)

  // ---- Request validation --------------------------------------------------------------------

  predicate HexDigit(c: char) {
    '0' <= c <= '9' || 'a' <= c <= 'f' || 'A' <= c <= 'F'
  }

  /** A version 4 UUID: dashes, the version digit, the variant digit, and hex digits elsewhere. */
  predicate UUIDv4(s: string) {
    && |s| == 36
    && forall i :: 0 <= i < 36 ==>
         if i in {8, 13, 18, 23} then s[i] == '-'
         else if i == 14 then s[i] == '4'
         else if i == 19 then s[i] in {'8', '9', 'a', 'b', 'A', 'B'}
         else HexDigit(s[i])
  }

  predicate DistinctPlayers(entries: seq<Entry>) {
    forall i, j :: 0 <= i < j < |entries| ==> entries[i].player != entries[j].player
  }

  predicate ValidRequest(req: Request) {
    && UUIDv4(req.id) && req.entries != [] && DistinctPlayers(req.entries)
    && forall i :: 0 <= i < |req.entries| ==> req.entries[i].token != NoToken
  }

  method ValidateApplyRequest(req: Request) returns (ok: bool)
    ensures ok == ValidRequest(req)
  {
    if req.id == "" || !UUIDv4(req.id) || |req.entries| == 0 {
      return false;
    }
    hide UUIDv4;
    var seen := {};
    for i := 0 to |req.entries|
      invariant forall j :: 0 <= j < i ==> req.entries[j].player in seen
      invariant forall player :: player in seen ==> exists j :: 0 <= j < i && req.entries[j].player == player
      invariant forall j, k :: 0 <= j < k < i ==> req.entries[j].player != req.entries[k].player
      invariant forall j :: 0 <= j < i ==> req.entries[j].token != NoToken
    {
      var e := req.entries[i];
      if e.player in seen {
        var j :| 0 <= j < i && req.entries[j].player == e.player;
        assert !DistinctPlayers(req.entries);
        return false;
      }
      seen := seen + {e.player};
      if e.token == NoToken {
        return false;
      }
    }
    return true;
  }

  // ---- The request hash ------------------------------------------------------------------------

  /** Expected values count to the cent. */
  function Normal(e: Entry): HashEntry {
    HashEntry(e.player, RoundHC(e.expectedCurrent), RoundHC(e.expectedRecommended), e.token)
  }

  predicate ByPlayer(entries: seq<HashEntry>) {
    forall i, j :: 0 <= i < j < |entries| ==> entries[i].player < entries[j].player
  }

  ghost predicate Lists(entries: seq<Entry>, x: HashEntry) {
    exists i :: 0 <= i < |entries| && x == Normal(entries[i])
  }

  /** The hash of a request: its season, and its normalised entries sorted by player. */
  ghost predicate IsHash(h: Hash, season: int, entries: seq<Entry>) {
    && h.season == season && ByPlayer(h.entries)
    && (forall x :: x in h.entries <==> Lists(entries, x))
  }

  method ComputeRequestHash(season: int, entries: seq<Entry>) returns (h: Hash)
    requires DistinctPlayers(entries)
    ensures IsHash(h, season, entries)
  {
    var sorted: seq<HashEntry> := [];
    for n := 0 to |entries|
      invariant ByPlayer(sorted)
      invariant forall x :: x in sorted <==> exists i :: 0 <= i < n && x == Normal(entries[i])
    {
      hide RoundHC;
      var e := Normal(entries[n]);
      var k := |sorted|;
      while k > 0 && e.player < sorted[k - 1].player
        invariant 0 <= k <= |sorted|
        invariant forall j :: k <= j < |sorted| ==> e.player < sorted[j].player
      {
        k := k - 1;
      }
      forall x | x in sorted
        ensures x.player != e.player
      {
        var i :| 0 <= i < n && x == Normal(entries[i]);
        assert entries[i].player != entries[n].player;
      }
      InsertByPlayer(sorted, k, e);
      sorted := sorted[..k] + [e] + sorted[k..];
    }
    return Hash(season, sorted);
  }

  lemma InsertByPlayer(sorted: seq<HashEntry>, k: nat, e: HashEntry)
    requires ByPlayer(sorted) && k <= |sorted| && forall x :: x in sorted ==> x.player != e.player
    requires k > 0 ==> sorted[k - 1].player <= e.player
    requires forall j :: k <= j < |sorted| ==> e.player < sorted[j].player
    ensures ByPlayer(sorted[..k] + [e] + sorted[k..])
    ensures forall x :: x in sorted[..k] + [e] + sorted[k..] <==> x in sorted || x == e
  {
    assert k > 0 ==> sorted[k - 1] in sorted;
    forall i | 0 <= i < k
      ensures sorted[i].player < e.player
    {
      assert i < k - 1 ==> sorted[i].player < sorted[k - 1].player;
    }
    SpliceByPlayer(sorted, k, e);
    SpliceMembers(sorted, k, e);
  }

  lemma SpliceByPlayer(sorted: seq<HashEntry>, k: nat, e: HashEntry)
    requires ByPlayer(sorted) && k <= |sorted|
    requires forall i :: 0 <= i < k ==> sorted[i].player < e.player
    requires forall j :: k <= j < |sorted| ==> e.player < sorted[j].player
    ensures ByPlayer(sorted[..k] + [e] + sorted[k..])
  {
    var t := sorted[..k] + [e] + sorted[k..];
    forall i, j | 0 <= i < j < |t|
      ensures t[i].player < t[j].player
    {
      assert t[i] == if i < k then sorted[i] else if i == k then e else sorted[i - 1];
      assert t[j] == if j < k then sorted[j] else if j == k then e else sorted[j - 1];
    }
  }

  // ---- Live recommendations ----------------------------------------------------------------------

  function PositiveRule(v: RuleValue<int>): Option<nat> {
    match v
    case Unset => Some(15)
    case Malformed => None
    case Number(n) => if n <= 0 then None else Some(n)
  }

  function MaxHC(v: RuleValue<real>): (maxHC: real)
    ensures maxHC > 0.0
  {
    if v.Number? && v.n > 0.0 then v.n else 4.5
  }

  function ConfigOf(season: int, rules: Rules): Option<Config> {
    var window, threshold := PositiveRule(rules.window), PositiveRule(rules.threshold);
    if window.None? || threshold.None? then None
    else Some(Config(season, window.value, threshold.value, MaxHC(rules.maxHC)))
  }

  predicate Rostered(l: Ledger, season: int, player: int) {
    season in l.seasons && player in l.seasons[season].roster && player in l.players
  }

  function EntryOf(l: Ledger, player: int): RosterEntry
    requires player in l.players
  {
    var p := l.players[player];
    RosterEntry(player, p.name, p.handicap, p.hold)
  }

  /** Whether recommendations are computed at all; otherwise there are none. */
  predicate Reviews(s: Season) {
    !s.rules.updateMethod.ManualReview? && !s.rules.updateMethod.KickerAverage? && s.weeksClosed > 0
  }

  /** The live recommendation for a player of the season's roster. */
  function LiveRec(l: Ledger, season: int, player: int): Option<Rec> {
    if !Rostered(l, season, player) || !Reviews(l.seasons[season]) then None
    else
      var cfg := ConfigOf(season, l.seasons[season].rules);
      if cfg.None? then None else Some(RecFor(EntryOf(l, player), AccumOf(l.racks, player), cfg.value))
  }

  // ---- What becomes of an entry --------------------------------------------------------------------

  /** Roster, hold, reason, token, current and recommended value are looked at in this order. */
  function VerdictOn(e: Entry, live: Option<Rec>): Verdict {
    if live.None? then Conflict(NotInRoster)
    else
      var rec := live.value;
      if rec.entry.hold then Reject(OnAdminHold)
      else if rec.reason == NoData then Reject(HasNoData)
      else if rec.reason == BelowThreshold then Reject(IsBelowThreshold)
      else if rec.reason == NoChange then Reject(HasNoChange)
      else if rec.recommended.None? then Reject(NotEligible)
      else if rec.token != e.token then Conflict(TokenMismatch)
      else if RoundHC(rec.entry.current) != RoundHC(e.expectedCurrent) then Conflict(AssignedChanged)
      else if RoundHC(rec.recommended.value) != RoundHC(e.expectedRecommended) then Conflict(RecommendedChanged)
      else Write(rec)
  }

  function RejectionsOf(l: Ledger, season: int, entries: seq<Entry>): seq<(int, RejectionCode)> {
    if entries == [] then []
    else
      var e := entries[|entries| - 1];
      var v := VerdictOn(e, LiveRec(l, season, e.player));
      RejectionsOf(l, season, entries[..|entries| - 1]) + if v.Reject? then [(e.player, v.rejection)] else []
  }

  function ConflictsOf(l: Ledger, season: int, entries: seq<Entry>): seq<(int, ConflictCode)> {
    if entries == [] then []
    else
      var e := entries[|entries| - 1];
      var v := VerdictOn(e, LiveRec(l, season, e.player));
      ConflictsOf(l, season, entries[..|entries| - 1]) + if v.Conflict? then [(e.player, v.conflict)] else []
  }

  /** Every entry passes. */
  predicate AllWrite(l: Ledger, season: int, entries: seq<Entry>) {
    forall i :: 0 <= i < |entries| ==> VerdictOn(entries[i], LiveRec(l, season, entries[i].player)).Write?
  }

  lemma {:induction false} AllWriteWhenNothingRaised(l: Ledger, season: int, entries: seq<Entry>)
    ensures AllWrite(l, season, entries) <==> RejectionsOf(l, season, entries) == [] && ConflictsOf(l, season, entries) == []
  {
    if entries != [] {
      var n := |entries| - 1;
      hide VerdictOn, LiveRec;
      AllWriteWhenNothingRaised(l, season, entries[..n]);
      hide AllWrite;
      LastWrites(l, season, entries);
      var v := VerdictOn(entries[n], LiveRec(l, season, entries[n].player));
    }
  }

  lemma LastWrites(l: Ledger, season: int, entries: seq<Entry>)
    requires entries != []
    ensures var n := |entries| - 1;
            AllWrite(l, season, entries) <==>
            AllWrite(l, season, entries[..n]) && VerdictOn(entries[n], LiveRec(l, season, entries[n].player)).Write?
  {
    hide VerdictOn, LiveRec;
    var n := |entries| - 1;
    assert forall i :: 0 <= i < n ==> entries[..n][i] == entries[i];
  }

  // ---- The effect of a commit ------------------------------------------------------------------------

  function NewHandicap(l: Ledger, season: int, player: int): real {
    var live := LiveRec(l, season, player);
    if live.Some? && live.value.recommended.Some? then live.value.recommended.value else 0.0
  }

  function ChangeFor(l: Ledger, season: int, player: int): Change {
    var p := if player in l.players then l.players[player] else Player("", 0.0, false);
    Change(player, p.name, p.handicap, NewHandicap(l, season, player))
  }

  function RowFor(l: Ledger, season: int, id: string, h: Hash, e: Entry): HistoryRow {
    HistoryRow(id, h, ChangeFor(l, season, e.player), season, e.token)
  }

  function RowsFor(l: Ledger, season: int, id: string, h: Hash, entries: seq<Entry>): (rows: seq<HistoryRow>)
    ensures |rows| == |entries|
  {
    seq(|entries|, i requires 0 <= i < |entries| => RowFor(l, season, id, h, entries[i]))
  }

  function PlayersOf(entries: seq<Entry>): set<int> {
    set i | 0 <= i < |entries| :: entries[i].player
  }

  /** The players on the request get their recommended handicaps, all others keep theirs. */
  function HandicapsAfter(l: Ledger, season: int, entries: seq<Entry>): map<int, Player> {
    map player | player in l.players ::
      if player in PlayersOf(entries) then l.players[player].(handicap := NewHandicap(l, season, player)) else l.players[player]
  }

  function Committed(l: Ledger, season: int, req: Request, h: Hash): Ledger {
    l.(players := HandicapsAfter(l, season, req.entries), history := l.history + RowsFor(l, season, req.id, h, req.entries))
  }

  function ChangesFor(l: Ledger, season: int, entries: seq<Entry>): (changes: seq<Change>)
    ensures |changes| == |entries|
  {
    seq(|entries|, i requires 0 <= i < |entries| => ChangeFor(l, season, entries[i].player))
  }

  // ---- History -----------------------------------------------------------------------------------------

  /** The table's unique key. */
  ghost predicate UniqueKeys(history: seq<HistoryRow>) {
    forall i, j :: 0 <= i < j < |history| ==> history[i].request != history[j].request || history[i].change.player != history[j].change.player
  }

  /** The rows of a request, by player. */
  ghost predicate ArePrior(prior: seq<HistoryRow>, history: seq<HistoryRow>, id: string) {
    && (forall i, j :: 0 <= i < j < |prior| ==> prior[i].change.player < prior[j].change.player)
    && (forall row :: row in prior <==> row in history && row.request == id)
  }

  ghost predicate HasPrior(l: Ledger, id: string) {
    exists i :: 0 <= i < |l.history| && l.history[i].request == id
  }

  function PriorChanges(prior: seq<HistoryRow>): (changes: seq<Change>)
    ensures |changes| == |prior|
  {
    seq(|prior|, i requires 0 <= i < |prior| => prior[i].change)
  }

  predicate SameHash(prior: seq<HistoryRow>) {
    forall i, j :: 0 <= i < |prior| && 0 <= j < |prior| ==> prior[i].hash == prior[j].hash
  }

  predicate SamePlayers(prior: seq<HistoryRow>, entries: seq<Entry>) {
    (set i | 0 <= i < |prior| :: prior[i].change.player) == PlayersOf(entries)
  }

  /** What a request gets when rows with its ID exist. */
  function ReplayOutcome(prior: seq<HistoryRow>, h: Hash, entries: seq<Entry>): Outcome
    requires prior != []
  {
    if !SameHash(prior) then Failed(InconsistentHashes)
    else if prior[0].hash != h then Failed(KeyReused)
    else if !SamePlayers(prior, entries) then Failed(HashCollision)
    else Applied(PriorChanges(prior), true)
  }

  // ---- One apply ------------------------------------------------------------------------------------------

  /** The checks before the transaction, in order. */
  function EarlyError(l: Ledger, season: int, req: Request, busy: bool): Option<ApplyError> {
    if season !in l.seasons then Some(LookupFailed)
    else if l.seasons[season].closed then Some(SeasonClosed)
    else if !ValidRequest(req) then Some(InvalidRequest)
    else if busy then Some(ConcurrentWrite)
    else None
  }

  /** The checks of a request that has not been seen, in order; rejections come before conflicts. */
  function FreshError(l: Ledger, season: int, entries: seq<Entry>): Option<ApplyError>
    requires season in l.seasons
  {
    var s := l.seasons[season];
    if Reviews(s) && ConfigOf(season, s.rules).None? then Some(InvalidRule)
    else if s.rules.updateMethod != GameDiffAverage then Some(MethodNotApply)
    else if RejectionsOf(l, season, entries) != [] then Some(Rejected(RejectionsOf(l, season, entries)))
    else if ConflictsOf(l, season, entries) != [] then Some(Conflicted(ConflictsOf(l, season, entries)))
    else None
  }

  /** One apply as a relation: its outcome, and the ledger it leaves. */
  ghost predicate Applies(l: Ledger, season: int, req: Request, busy: bool, outcome: Outcome, after: Ledger) {
    var early := EarlyError(l, season, req, busy);
    if early.Some? then outcome == Failed(early.value) && after == l
    else
      exists h :: IsHash(h, season, req.entries) && AppliesHashed(l, season, req, h, outcome, after)
  }

  ghost predicate AppliesHashed(l: Ledger, season: int, req: Request, h: Hash, outcome: Outcome, after: Ledger)
    requires season in l.seasons
  {
    if HasPrior(l, req.id) then
      exists prior :: prior != [] && ArePrior(prior, l.history, req.id) && outcome == ReplayOutcome(prior, h, req.entries) && after == l
    else AppliesFresh(l, season, req, h, outcome, after)
  }

  ghost predicate AppliesFresh(l: Ledger, season: int, req: Request, h: Hash, outcome: Outcome, after: Ledger)
    requires season in l.seasons
  {
    if FreshError(l, season, req.entries).Some? then
      outcome == Failed(FreshError(l, season, req.entries).value) && after == l
    else
      outcome == Applied(ChangesFor(l, season, req.entries), false) && after == Committed(l, season, req, h)
  }
}
