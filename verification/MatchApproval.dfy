/**
 One match's approval state, and every guarded write on it as a function from row to row.

 A guarded write is one conditional UPDATE: it either changes the row as a whole or changes
 nothing and reports why. The score revision makes it optimistic: an action that names the
 revision it was decided on fails once the scores have moved on.
 */
module MatchApproval {
  import opened Prelude
  import opened MatchRecords

  datatype Label = Pending | Approved | CorrectionRequested

  /** Who acted: attribution only, never used in a decision. */
  datatype Actor = Nobody | Actor(userID: Option<int>, playerID: Option<int>, name: string)

  datatype SideState = SideState(state: Label, revision: Option<int>, actor: Actor, note: string)

  const PENDING := SideState(Pending, None, Nobody, "")

  /** The append-only history. Admin decisions snapshot both sides' label and note. */
  datatype Event =
    | SideApproved(side: Side, revision: int, actor: Actor)
    | SideWithdrawn(side: Side, revision: int, actor: Actor)
    | SideCorrection(side: Side, revision: int, actor: Actor, note: string)
    | SideCleared(side: Side, revision: int)
    | AdminDecision(overridden: bool, revision: int, admin: Option<int>, note: string,
                    homeState: Label, homeNote: string, awayState: Label, awayNote: string)

  datatype Acceptance = Acceptance(admin: Option<int>, note: string)

  datatype MatchRow = MatchRow(
    season: int,
    week: int,
    completed: bool,
    weekClosed: bool,
    acceptance: Option<Acceptance>,
    processing: Option<Option<int>>,
    revision: int,
    home: SideState,
    away: SideState,
    rounds: seq<RoundRow>,
    results: seq<ResultRow>,
    log: seq<Event>)
  {
    function At(side: Side): SideState {
      if side.Home? then home else away
    }

    function With(side: Side, state: SideState): MatchRow {
      if side.Home? then this.(home := state) else this.(away := state)
    }

    function Logged(e: Event): MatchRow {
      this.(log := log + [e])
    }
  }

  /** Why an action was refused. */
  datatype Refusal =
    | NotFound | StaleRevision | SeasonClosed | WeekClosed | AlreadyAccepted | AlreadyProcessed
    | NotScored | TeamStateChanged | InvalidTransition
    | OverrideRequired | NotAccepted | NoteRequired | Ineligible
    | WeekInvalid | WeekNotClosed | EditFailed

  // ---- Guards ------------------------------------------------------------------------

  /** The condition every guarded write re-verifies: not accepted, not processed, week and season open. */
  predicate StillEditable(m: MatchRow, seasonClosed: bool) {
    m.acceptance.None? && m.processing.None? && !m.weekClosed && !seasonClosed
  }

  /** Why a score edit matched no row. The last answer covers a row that changed again meanwhile. */
  function ClassifyScoreEdit(m: MatchRow, seasonClosed: bool, expected: Option<int>): Refusal {
    if expected.Some? && m.revision != expected.value then StaleRevision
    else if seasonClosed then SeasonClosed
    else if m.weekClosed then WeekClosed
    else if m.processing.Some? then AlreadyProcessed
    else if m.acceptance.Some? then AlreadyAccepted
    else StaleRevision
  }

  function ClassifyTeamAction(m: MatchRow, seasonClosed: bool, expected: int, side: Side,
                              requireCompleted: bool, requireApproved: bool): Refusal {
    if m.revision != expected then StaleRevision
    else if seasonClosed then SeasonClosed
    else if m.weekClosed then WeekClosed
    else if m.processing.Some? then AlreadyProcessed
    else if m.acceptance.Some? then AlreadyAccepted
    else if requireCompleted && !m.completed then NotScored
    else if requireApproved && m.At(side).state != Approved then InvalidTransition
    else StaleRevision
  }

  /** What the accept-or-override decision was based on: label, revision and note of a side. */
  predicate SamePin(s: SideState, pinned: SideState) {
    s.state == pinned.state && s.revision == pinned.revision && s.note == pinned.note
  }

  function ClassifyAdminAccept(m: MatchRow, seasonClosed: bool, expected: int, pinnedHome: SideState, pinnedAway: SideState): Refusal {
    if m.revision != expected then StaleRevision
    else if seasonClosed then SeasonClosed
    else if m.weekClosed then WeekClosed
    else if !m.completed then NotScored
    else if m.processing.Some? then AlreadyProcessed
    else if m.acceptance.Some? then AlreadyAccepted
    else if !SamePin(m.home, pinnedHome) || !SamePin(m.away, pinnedAway) then TeamStateChanged
    else StaleRevision
  }

  // ---- Guarded writes ------------------------------------------------------------------

  /** Reset a side that is not pending, and log it. */
  function Cleared(m: MatchRow, side: Side): MatchRow {
    if m.At(side).state == Pending then m
    else m.With(side, PENDING).Logged(SideCleared(side, m.revision))
  }

  /** AdvanceScoreRevisionForEdit: bump the revision and clear both sides' approvals. */
  function Advance(m: MatchRow, seasonClosed: bool, expected: Option<int>): Result<MatchRow, Refusal> {
    if (expected.None? || m.revision == expected.value) && StillEditable(m, seasonClosed) then
      Ok(Cleared(Cleared(m.(revision := m.revision + 1), Home), Away))
    else Err(ClassifyScoreEdit(m, seasonClosed, expected))
  }

  function ApproveSide(m: MatchRow, seasonClosed: bool, side: Side, expected: int, actor: Actor): Result<MatchRow, Refusal> {
    if m.revision == expected && m.completed && StillEditable(m, seasonClosed) then
      Ok(m.With(side, SideState(Approved, Some(expected), actor, "")).Logged(SideApproved(side, expected, actor)))
    else Err(ClassifyTeamAction(m, seasonClosed, expected, side, true, false))
  }

  function WithdrawSide(m: MatchRow, seasonClosed: bool, side: Side, expected: int, actor: Actor): Result<MatchRow, Refusal> {
    if m.revision == expected && m.At(side).state == Approved && StillEditable(m, seasonClosed) then
      Ok(m.With(side, PENDING).Logged(SideWithdrawn(side, expected, actor)))
    else Err(ClassifyTeamAction(m, seasonClosed, expected, side, false, true))
  }

  function CorrectSide(m: MatchRow, seasonClosed: bool, side: Side, expected: int, note: string, actor: Actor): Result<MatchRow, Refusal> {
    if m.revision == expected && m.completed && StillEditable(m, seasonClosed) then
      Ok(m.With(side, SideState(CorrectionRequested, Some(expected), actor, note))
          .Logged(SideCorrection(side, expected, actor, note)))
    else Err(ClassifyTeamAction(m, seasonClosed, expected, side, true, false))
  }

  /** GuardedAdminAccept: accept if everything the decision was based on still holds. */
  function GuardedAccept(m: MatchRow, seasonClosed: bool, expected: int, pinnedHome: SideState, pinnedAway: SideState,
                         admin: Option<int>, note: string): Result<MatchRow, Refusal> {
    if && m.revision == expected && m.completed && StillEditable(m, seasonClosed)
       && SamePin(m.home, pinnedHome) && SamePin(m.away, pinnedAway)
    then Ok(m.(acceptance := Some(Acceptance(admin, note))))
    else Err(ClassifyAdminAccept(m, seasonClosed, expected, pinnedHome, pinnedAway))
  }

  // ---- The accept-or-override decision ---------------------------------------------------

  predicate ApprovedAt(s: SideState, revision: int) {
    s.state == Approved && s.revision == Some(revision)
  }

  /** Accept normally (false) or override (true), from one reading of the row and the two locks. */
  function Decide(m: MatchRow, seasonClosed: bool, weekClosed: bool, expected: int, override: bool): Result<bool, Refusal> {
    if expected != m.revision then Err(StaleRevision)
    else if seasonClosed then Err(SeasonClosed)
    else if weekClosed then Err(WeekClosed)
    else if !m.completed then Err(NotScored)
    else if m.processing.Some? then Err(AlreadyProcessed)
    else if m.acceptance.Some? then Err(AlreadyAccepted)
    else if ApprovedAt(m.home, expected) && ApprovedAt(m.away, expected) then Ok(false)
    else if override then Ok(true)
    else Err(OverrideRequired)
  }

  /** The transaction that follows the decision: guarded write and event, both or neither. */
  function CommitAccept(m: MatchRow, seasonClosed: bool, expected: int, overridden: bool,
                        pinnedHome: SideState, pinnedAway: SideState, admin: Option<int>, note: string): Result<MatchRow, Refusal> {
    match GuardedAccept(m, seasonClosed, expected, pinnedHome, pinnedAway, admin, note)
    case Err(e) => Err(e)
    case Ok(accepted) =>
      Ok(accepted.Logged(AdminDecision(overridden, expected, admin, note,
        pinnedHome.state, pinnedHome.note, pinnedAway.state, pinnedAway.note)))
  }

  // ---- The older, unguarded admin calls ----------------------------------------------------

  function CheckApprove(m: MatchRow, seasonClosed: bool): Option<Refusal> {
    if seasonClosed then Some(SeasonClosed)
    else if m.weekClosed then Some(WeekClosed)
    else if !m.completed then Some(NotScored)
    else if m.processing.Some? then Some(AlreadyProcessed)
    else None
  }

  function CheckProcess(m: MatchRow, seasonClosed: bool): Option<Refusal> {
    if seasonClosed then Some(SeasonClosed)
    else if m.weekClosed then Some(WeekClosed)
    else if m.acceptance.None? then Some(NotAccepted)
    else None
  }

  function CheckUnapprove(m: MatchRow, seasonClosed: bool): Option<Refusal> {
    if seasonClosed then Some(SeasonClosed)
    else if m.weekClosed then Some(WeekClosed)
    else if m.processing.Some? then Some(AlreadyProcessed)
    else None
  }

  function CheckUnprocess(m: MatchRow, seasonClosed: bool): Option<Refusal> {
    if seasonClosed then Some(SeasonClosed)
    else if m.weekClosed then Some(WeekClosed)
    else None
  }

  datatype LegacyCall =
    | ApproveMatch(admin: Option<int>, note: string)
    | ProcessMatch(processor: Option<int>)
    | UnapproveMatch
    | UnprocessMatch

  function CheckLegacy(call: LegacyCall, m: MatchRow, seasonClosed: bool): Option<Refusal> {
    match call
    case ApproveMatch(_, _) => CheckApprove(m, seasonClosed)
    case ProcessMatch(_) => CheckProcess(m, seasonClosed)
    case UnapproveMatch => CheckUnapprove(m, seasonClosed)
    case UnprocessMatch => CheckUnprocess(m, seasonClosed)
  }

  /** The write that follows the check, unconditional in the program. */
  function WriteLegacy(call: LegacyCall, m: MatchRow): MatchRow {
    match call
    case ApproveMatch(admin, note) => m.(acceptance := Some(Acceptance(admin, note)))
    case ProcessMatch(admin) => m.(processing := Some(admin))
    case UnapproveMatch => m.(acceptance := None)
    case UnprocessMatch => m.(processing := None)
  }

  // ---- Edits, and closing and reopening the week ---------------------------------------------

  /** What the body of an edit does once the revision has been advanced; it may fail. */
  datatype EditBody =
    | SavesRounds(rounds: seq<RoundRow>, results: seq<ResultRow>, anyScored: bool)
    | SubmitsResults(submitted: seq<ResultRow>)
    | ClearsResults
    | SwapsSubstitute
    | Fails

  function Edited(m: MatchRow, body: EditBody): Result<MatchRow, Refusal> {
    match body
    case SavesRounds(rounds, results, anyScored) =>
      Ok(m.(rounds := rounds, results := results, completed := m.completed || anyScored))
    case SubmitsResults(results) => Ok(m.(results := results, completed := true))
    case ClearsResults => Ok(m.(results := [], completed := false))
    case SwapsSubstitute => Ok(m)
    case Fails => Err(EditFailed)
  }

  /** One edit transaction: the revision advances first, and a failing body rolls it back. */
  function Edit(m: MatchRow, seasonClosed: bool, expected: Option<int>, body: EditBody): Result<MatchRow, Refusal> {
    match Advance(m, seasonClosed, expected)
    case Err(e) => Err(e)
    case Ok(advanced) => Edited(advanced, body)
  }

  /** A substitute swap is an edit only once scores are in. */
  function Substitute(m: MatchRow, seasonClosed: bool): Result<MatchRow, Refusal> {
    if m.completed then Edit(m, seasonClosed, None, SwapsSubstitute) else Ok(m)
  }

  /** Closing the week locks the match, and processes it if it is accepted and not yet processed. */
  function WeekClosing(m: MatchRow, admin: Option<int>): MatchRow {
    var locked := m.(weekClosed := true);
    if m.completed && m.acceptance.Some? && m.processing.None? then locked.(processing := Some(admin)) else locked
  }

  function WeekReopening(m: MatchRow): MatchRow {
    m.(weekClosed := false)
  }
}
