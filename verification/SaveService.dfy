/** Saving a scoresheet as a guarded edit of its match, and what survives a history of saves. */
module SaveService {
  import opened Prelude
  import opened MatchRecords
  import opened MatchApproval
  import opened ApprovalRuns
  import opened ApprovalEffects
  import opened ApprovalStore
  import opened Scoresheet
  import opened Snapshots
  import opened SaveRounds
  import opened SnapshotTheorems

  datatype Submission = Submission(sheet: seq<Pairing>, handicaps: map<int, real>, cfg: RoundConfig, homeTeam: int, awayTeam: int)

  /** The body of the edit that saving a sheet over the stored rows amounts to. */
  ghost predicate IsSaveBody(body: EditBody, stored: seq<RoundRow>, s: Submission) {
    match body
    case SavesRounds(rounds, results, anyScored) =>
      var hcs := HandicapsFor(stored, s.sheet, s.handicaps);
      && SaveRefusal(stored, s.sheet, s.handicaps) == None
      && rounds == RowsFor(s.sheet, hcs, s.cfg)
      && (exists winners :: AreRoundWinners(winners, s.sheet, hcs, s.cfg) && AreResults(results, s.sheet, winners, s.homeTeam, s.awayTeam))
      && anyScored == AnyTen(s.sheet)
    case _ => body.Fails? && SaveRefusal(stored, s.sheet, s.handicaps).Some?
  }

  /** What a save that goes through makes of its match: rows, results and completion, under the next revision. */
  ghost predicate IsSaved(m: MatchRow, n: MatchRow, s: Submission) {
    var hcs := HandicapsFor(m.rounds, s.sheet, s.handicaps);
    && n.rounds == RowsFor(s.sheet, hcs, s.cfg)
    && (exists winners :: AreRoundWinners(winners, s.sheet, hcs, s.cfg) && AreResults(n.results, s.sheet, winners, s.homeTeam, s.awayTeam))
    && (n.completed <==> m.completed || AnyTen(s.sheet))
    && n.revision == m.revision + 1 && n.home.state == n.away.state == Pending
  }

  datatype SaveFailure = Refused(why: Refusal) | Rejected(reason: SaveError)

  /**
   Save a sheet: one edit step, whose body is the saved sheet or, when the sheet is rejected, a
   failure that rolls everything back. A locked or outdated match is reported first.
   */
  method SaveSheet(store: RoundStore, id: int, expected: Option<int>, s: Submission)
    returns (r: Result<int, SaveFailure>, ghost body: EditBody)
    modifies store`rows
    ensures store.State() == Next(old(store.State()), EditMatch(id, expected, body))
    ensures id in old(store.rows) ==> IsSaveBody(body, old(store.rows)[id].rounds, s)
    ensures match Apply(old(store.State()), EditMatch(id, expected, body))
            case Ok(after) => id in after.rows && r == Ok(after.rows[id].revision)
            case Err(EditFailed) =>
              id in old(store.rows) && r == Err(Rejected(SaveRefusal(old(store.rows)[id].rounds, s.sheet, s.handicaps).value))
            case Err(why) => r == Err(Refused(why))
    ensures match r
            case Ok(revision) =>
              && id in old(store.rows) && id in store.rows && revision == store.rows[id].revision
              && SaveRefusal(old(store.rows)[id].rounds, s.sheet, s.handicaps) == None
              && IsSaved(old(store.rows)[id], store.rows[id], s)
              && OthersStay(old(store.State()), store.State(), id)
            case Err(_) => store.rows == old(store.rows)
  {
    var edit := Fails;
    var reason := UnknownPlayer;
    if id in store.rows {
      var m := store.rows[id];
      var tables := new MatchTables(m.rounds, m.results, m.completed);
      var refused, winners := tables.SaveRounds(s.sheet, s.handicaps, s.cfg, s.homeTeam, s.awayTeam);
      if refused.Some? {
        reason := refused.value;
      } else {
        var anyScored := SheetHasTen(s.sheet);
        edit := SavesRounds(tables.rounds, tables.results, anyScored);
      }
    }
    body := edit;
    ghost var before := store.State();
    var saved := store.EditScores(id, expected, edit);
    if saved.Ok? {
      SavedByEdit(before, id, expected, edit, s);
    }
    match saved {
      case Ok(revision) => r := Ok(revision);
      case Err(EditFailed) => r := Err(Rejected(reason));
      case Err(why) => r := Err(Refused(why));
    }
  }

  lemma SavedByEdit(l: League, id: int, expected: Option<int>, body: EditBody, s: Submission)
    requires Apply(l, EditMatch(id, expected, body)).Ok?
    requires id in l.rows ==> IsSaveBody(body, l.rows[id].rounds, s)
    ensures var after := Next(l, EditMatch(id, expected, body));
            && id in l.rows && id in after.rows && SaveRefusal(l.rows[id].rounds, s.sheet, s.handicaps) == None
            && IsSaved(l.rows[id], after.rows[id], s) && OthersStay(l, after, id)
  {
    EditLeaves(l, id, expected, body);
    hide Apply, Next, AreRoundWinners, AreResults, SaveRefusal, HandicapsFor, AnyTen;
  }

  // ---- Runs with saves in them ----------------------------------------------------------------

  predicate SamePlayers(p: Pairing, q: Pairing) {
    SameSlot(p, q) && p.awayPlayer == q.awayPlayer
  }

  predicate Contains(ps: seq<Pairing>, p: Pairing) {
    exists i :: 0 <= i < |ps| && SamePlayers(ps[i], p)
  }

  /** Some row for the pairing's players carries these handicaps. */
  predicate Carries(rows: seq<RoundRow>, p: Pairing, hc: PairingHC) {
    exists i :: 0 <= i < |rows| && SamePlayers(rows[i].pairing, p) && rows[i].homeHC == Some(hc.home) && rows[i].awayHC == Some(hc.away)
  }

  lemma SaveCarriesOver(qs: seq<Pairing>, hcs: seq<PairingHC>, cfg: RoundConfig, s: Submission, p: Pairing, i: nat) returns (j: nat)
    requires |hcs| == |qs| && !HomeTwice(qs) && i < |qs| && SamePlayers(qs[i], p) && Contains(s.sheet, p)
    ensures j < |s.sheet| && SamePlayers(s.sheet[j], p)
    ensures HandicapsFor(RowsFor(qs, hcs, cfg), s.sheet, s.handicaps)[j] == hcs[i]
  {
    hide RowsIn, Effective, Ambiguous, CalcSpotM, HomeTwice;
    j :| 0 <= j < |s.sheet| && SamePlayers(s.sheet[j], p);
    UnchangedSlotKeepsSnapshots(qs, hcs, cfg, s.sheet[j], i, s.handicaps);
  }

  /** If the step saves a sheet of the match, it is one that keeps the pairing. */
  ghost predicate SaveKeeps(l: League, s: Step, id: int, p: Pairing) {
    id in l.rows && s.EditMatch? && s.id == id && s.body.SavesRounds? && Apply(l, s).Ok? ==>
      exists sub: Submission :: IsSaveBody(s.body, l.rows[id].rounds, sub) && Contains(sub.sheet, p)
  }

  ghost predicate SavesKeep(l: League, steps: seq<Step>, id: int, p: Pairing) {
    forall k :: 0 <= k < |steps| ==> SaveKeeps(Run(l, steps[..k]), steps[k], id, p)
  }

  /** The match holds the rows of a saved sheet on which the pairing has these handicaps. */
  ghost predicate OnSheet(l: League, id: int, p: Pairing, hc: PairingHC) {
    id in l.rows && exists qs, hcs, cfg, i :: IsSheet(l.rows[id].rounds, qs, hcs, cfg) && Slot(qs, hcs, i, p, hc)
  }

  ghost predicate IsSheet(rows: seq<RoundRow>, qs: seq<Pairing>, hcs: seq<PairingHC>, cfg: RoundConfig) {
    |hcs| == |qs| && !HomeTwice(qs) && rows == RowsFor(qs, hcs, cfg)
  }

  predicate Slot(qs: seq<Pairing>, hcs: seq<PairingHC>, i: nat, p: Pairing, hc: PairingHC) {
    i < |qs| && i < |hcs| && SamePlayers(qs[i], p) && hcs[i] == hc
  }

  /** A save that goes through stores its pairings with the handicaps it resolves for them. */
  lemma SavedIsOnSheet(m: MatchRow, n: MatchRow, s: Submission, l: League, id: int, p: Pairing, i: nat)
    requires IsSaved(m, n, s) && SaveRefusal(m.rounds, s.sheet, s.handicaps) == None
    requires id in l.rows && l.rows[id] == n && i < |s.sheet| && SamePlayers(s.sheet[i], p)
    ensures OnSheet(l, id, p, HandicapsFor(m.rounds, s.sheet, s.handicaps)[i])
  {
    var hcs := HandicapsFor(m.rounds, s.sheet, s.handicaps);
    hide HomeTwice, RowsFor, HandicapsFor, HasErrors, AmbiguousSheet, PlayersKnown, AreRoundWinners, AreResults, AnyTen;
    assert IsSheet(n.rounds, s.sheet, hcs, s.cfg) && Slot(s.sheet, hcs, i, p, hcs[i]);
  }

  lemma OneStepKeeps(l: League, s: Step, id: int, p: Pairing, hc: PairingHC)
    requires OnSheet(l, id, p, hc) && SaveKeeps(l, s, id, p)
    ensures OnSheet(Next(l, s), id, p, hc)
  {
    hide *;
    OnSheetOfMatch(l, id, p, hc);
    OnlySavesChangeRounds(l, s, id);
    if s.EditMatch? && s.id == id && s.body.SavesRounds? && Apply(l, s).Ok? {
      var qs, hcs, cfg, i := SheetOf(l, id, p, hc);
      var sub := KeepingSave(l, s, id, p);
      var j := SaveCarriesOver(qs, hcs, cfg, sub, p, i);
      SavedByEdit(l, id, s.expected, s.body, sub);
      AsEdit(s);
      SavedIsOnSheet(l.rows[id], Next(l, s).rows[id], sub, Next(l, s), id, p, j);
    } else {
      OnSheetBySameRows(l, Next(l, s), id, p, hc);
    }
  }

  lemma AsEdit(s: Step)
    requires s.EditMatch?
    ensures s == EditMatch(s.id, s.expected, s.body)
  {
  }

  lemma OnSheetOfMatch(l: League, id: int, p: Pairing, hc: PairingHC)
    requires OnSheet(l, id, p, hc)
    ensures id in l.rows
  {
  }

  lemma SheetOf(l: League, id: int, p: Pairing, hc: PairingHC)
    returns (qs: seq<Pairing>, hcs: seq<PairingHC>, cfg: RoundConfig, i: nat)
    requires OnSheet(l, id, p, hc)
    ensures id in l.rows && |hcs| == |qs| && !HomeTwice(qs) && l.rows[id].rounds == RowsFor(qs, hcs, cfg)
    ensures i < |qs| && SamePlayers(qs[i], p) && hcs[i] == hc
  {
    hide HomeTwice, RowsFor, SamePlayers;
    qs, hcs, cfg, i :| IsSheet(l.rows[id].rounds, qs, hcs, cfg) && Slot(qs, hcs, i, p, hc);
  }

  lemma KeepingSave(l: League, s: Step, id: int, p: Pairing) returns (sub: Submission)
    requires SaveKeeps(l, s, id, p) && id in l.rows && s.EditMatch? && s.id == id && s.body.SavesRounds? && Apply(l, s).Ok?
    ensures IsSaveBody(s.body, l.rows[id].rounds, sub) && Contains(sub.sheet, p)
  {
    hide IsSaveBody, Contains, Apply;
    sub :| IsSaveBody(s.body, l.rows[id].rounds, sub) && Contains(sub.sheet, p);
  }

  lemma OnSheetBySameRows(l: League, after: League, id: int, p: Pairing, hc: PairingHC)
    requires OnSheet(l, id, p, hc) && id in after.rows && after.rows[id].rounds == l.rows[id].rounds
    ensures OnSheet(after, id, p, hc)
  {
    hide IsSheet, Slot;
  }

  lemma KeepsFromNext(l: League, steps: seq<Step>, id: int, p: Pairing)
    requires steps != [] && SavesKeep(l, steps, id, p)
    ensures SaveKeeps(l, steps[0], id, p) && SavesKeep(Next(l, steps[0]), steps[1..], id, p)
  {
    assert Run(l, steps[..0]) == l;
    hide SaveKeeps, Next;
    forall k | 0 <= k < |steps| - 1
      ensures SaveKeeps(Run(Next(l, steps[0]), steps[1..][..k]), steps[1..][k], id, p)
    {
      assert steps[..k + 1][1..] == steps[1..][..k];
      assert SaveKeeps(Run(l, steps[..k + 1]), steps[k + 1], id, p);
    }
  }

  lemma {:induction false} StillOnSheet(l: League, steps: seq<Step>, id: int, p: Pairing, hc: PairingHC)
    requires OnSheet(l, id, p, hc) && SavesKeep(l, steps, id, p)
    ensures OnSheet(Run(l, steps), id, p, hc)
    decreases |steps|
  {
    hide OnSheet, SavesKeep, Next;
    if steps != [] {
      KeepsFromNext(l, steps, id, p);
      OneStepKeeps(l, steps[0], id, p, hc);
      StillOnSheet(Next(l, steps[0]), steps[1..], id, p, hc);
    }
  }

  /**
   Main result: once saved, the handicaps of a pairing survive every later run of the protocol in
   which each save that goes through keeps the pairing on the sheet, whatever else happens to the
   match, to the other slots, to the players' handicaps and to the rules.
   */
  lemma SnapshotsSurvive(m: MatchRow, s: Submission, l: League, steps: seq<Step>, id: int, p: Pairing, i: nat)
    requires id in l.rows && IsSaved(m, l.rows[id], s) && SaveRefusal(m.rounds, s.sheet, s.handicaps) == None
    requires i < |s.sheet| && SamePlayers(s.sheet[i], p) && SavesKeep(l, steps, id, p)
    ensures id in Run(l, steps).rows && Carries(Run(l, steps).rows[id].rounds, p, HandicapsFor(m.rounds, s.sheet, s.handicaps)[i])
  {
    hide *;
    var hc := HandicapsFor(m.rounds, s.sheet, s.handicaps)[i];
    SavedIsOnSheet(m, l.rows[id], s, l, id, p, i);
    StillOnSheet(l, steps, id, p, hc);
    var qs, hcs, cfg, j := SheetOf(Run(l, steps), id, p, hc);
    SavedRowCarries(qs, hcs, cfg, p, j);
  }

  lemma SavedRowCarries(qs: seq<Pairing>, hcs: seq<PairingHC>, cfg: RoundConfig, p: Pairing, i: nat)
    requires |hcs| == |qs| && i < |qs| && SamePlayers(qs[i], p)
    ensures Carries(RowsFor(qs, hcs, cfg), p, hcs[i])
  {
    hide CalcSpotM;
    assert RowsFor(qs, hcs, cfg)[i].pairing == qs[i];
  }
}
