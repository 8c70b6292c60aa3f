/**
 What every write keeps: the shape of the side states, the ladder completed / accepted /
 processed, and a history from which the sides' states and every admin decision can be read.
 */
module ApprovalInvariants {
  import opened Prelude
  import opened MatchRecords
  import opened MatchApproval

  // ---- Reading the history ---------------------------------------------------------------

  /** What one event makes of a side. */
  function After(e: Event, side: Side, before: SideState): SideState {
    match e
    case SideApproved(s, revision, actor) =>
      if s == side then SideState(Approved, Some(revision), actor, "") else before
    case SideWithdrawn(s, _, _) => if s == side then PENDING else before
    case SideCorrection(s, revision, actor, note) =>
      if s == side then SideState(CorrectionRequested, Some(revision), actor, note) else before
    case SideCleared(s, _) => if s == side then PENDING else before
    case AdminDecision(_, _, _, _, _, _, _, _) => before
  }

  /** A side's state as the history tells it. */
  function Replay(log: seq<Event>, side: Side): SideState {
    if log == [] then PENDING else After(log[|log| - 1], side, Replay(log[..|log| - 1], side))
  }

  /** An admin decision is true to the history before it: its snapshot, and accept or override. */
  ghost predicate DecisionIsTrue(before: seq<Event>, e: Event) {
    e.AdminDecision? ==>
      var home, away := Replay(before, Home), Replay(before, Away);
      && home.state == e.homeState && home.note == e.homeNote
      && away.state == e.awayState && away.note == e.awayNote
      && (e.overridden <==> !(ApprovedAt(home, e.revision) && ApprovedAt(away, e.revision)))
  }

  ghost predicate HistoryIsTrue(log: seq<Event>) {
    forall k :: 0 <= k < |log| ==> DecisionIsTrue(log[..k], log[k])
  }

  // ---- The invariant ---------------------------------------------------------------------

  /** Pending without a revision, or decided at the current revision. */
  predicate SideFits(s: SideState, revision: int) {
    if s.state == Pending then s == PENDING else s.revision == Some(revision)
  }

  ghost predicate Ladder(m: MatchRow) {
    && (m.home.state != Pending || m.away.state != Pending ==> m.completed)
    && (m.acceptance.Some? ==> m.completed)
    && (m.processing.Some? ==> m.acceptance.Some?)
  }

  ghost predicate Inv(m: MatchRow) {
    && SideFits(m.home, m.revision) && SideFits(m.away, m.revision)
    && Ladder(m)
    && Replay(m.log, Home) == m.home && Replay(m.log, Away) == m.away
    && HistoryIsTrue(m.log)
  }

  /** A match as it is created: nothing entered, nothing decided, no history. */
  predicate Fresh(m: MatchRow) {
    && !m.completed && m.acceptance.None? && m.processing.None?
    && m.home == PENDING && m.away == PENDING && m.log == []
  }

  lemma FreshMatchesFit(m: MatchRow)
    requires Fresh(m)
    ensures Inv(m)
  {
  }

  lemma HistoryGrows(log: seq<Event>, e: Event)
    requires HistoryIsTrue(log) && DecisionIsTrue(log, e)
    ensures HistoryIsTrue(log + [e])
    ensures forall side :: Replay(log + [e], side) == After(e, side, Replay(log, side))
  {
    var longer := log + [e];
    assert longer[..|log|] == log;
    forall k | 0 <= k < |longer|
      ensures DecisionIsTrue(longer[..k], longer[k])
    {
      assert k < |log| ==> longer[..k] == log[..k];
    }
  }

  // ---- Every guarded write keeps it --------------------------------------------------------

  /** Clearing both sides after a revision bump: the history follows, the sides are pending. */
  lemma ClearedFollows(m: MatchRow, side: Side)
    requires HistoryIsTrue(m.log) && Replay(m.log, Home) == m.home && Replay(m.log, Away) == m.away
    requires m.At(side).state == Pending ==> m.At(side) == PENDING
    ensures var c := Cleared(m, side);
            && HistoryIsTrue(c.log) && Replay(c.log, Home) == c.home && Replay(c.log, Away) == c.away
            && c.At(side) == PENDING && c.At(side.Other()) == m.At(side.Other())
            && c == m.(home := c.home, away := c.away, log := c.log)
  {
    hide HistoryIsTrue, Replay;
    if m.At(side).state != Pending {
      HistoryGrows(m.log, SideCleared(side, m.revision));
      assert side == Home || side == Away;
    }
  }

  /** After an advance both sides are pending, the revision is one higher, nothing else moved. */
  lemma AdvanceFollows(m: MatchRow, seasonClosed: bool, expected: Option<int>)
    requires Inv(m) && Advance(m, seasonClosed, expected).Ok?
    ensures var a := Advance(m, seasonClosed, expected).value;
            && a.home == PENDING && a.away == PENDING && a.revision == m.revision + 1
            && a == m.(revision := m.revision + 1, home := PENDING, away := PENDING, log := a.log)
            && HistoryIsTrue(a.log) && Replay(a.log, Home) == PENDING && Replay(a.log, Away) == PENDING
  {
    var bumped := m.(revision := m.revision + 1);
    ClearedFollows(bumped, Home);
    ClearedFollows(Cleared(bumped, Home), Away);
  }

  lemma EditKeepsInv(m: MatchRow, seasonClosed: bool, expected: Option<int>, body: EditBody)
    requires Inv(m) && Edit(m, seasonClosed, expected, body).Ok?
    ensures Inv(Edit(m, seasonClosed, expected, body).value)
    ensures Edit(m, seasonClosed, expected, body).value.revision == m.revision + 1
  {
    AdvanceFollows(m, seasonClosed, expected);
  }

  /** Setting one side, with the event that says so, keeps the invariant. */
  lemma SideWritten(m: MatchRow, side: Side, state: SideState, e: Event)
    requires Inv(m) && SideFits(state, m.revision) && (state.state != Pending ==> m.completed)
    requires !e.AdminDecision? && forall s, before :: After(e, s, before) == if s == side then state else before
    ensures Inv(m.With(side, state).Logged(e))
  {
    hide HistoryIsTrue, Replay, After;
    HistoryGrows(m.log, e);
    assert After(e, Home, m.home) == if side == Home then state else m.home;
    assert After(e, Away, m.away) == if side == Away then state else m.away;
  }

  lemma ApproveKeepsInv(m: MatchRow, seasonClosed: bool, side: Side, expected: int, actor: Actor)
    requires Inv(m)
    ensures var r := ApproveSide(m, seasonClosed, side, expected, actor); r.Ok? ==> Inv(r.value)
  {
    hide Inv;
    if ApproveSide(m, seasonClosed, side, expected, actor).Ok? {
      SideWritten(m, side, SideState(Approved, Some(expected), actor, ""), SideApproved(side, expected, actor));
    }
  }

  lemma WithdrawKeepsInv(m: MatchRow, seasonClosed: bool, side: Side, expected: int, actor: Actor)
    requires Inv(m)
    ensures var r := WithdrawSide(m, seasonClosed, side, expected, actor); r.Ok? ==> Inv(r.value)
  {
    hide Inv;
    if WithdrawSide(m, seasonClosed, side, expected, actor).Ok? {
      SideWritten(m, side, PENDING, SideWithdrawn(side, expected, actor));
    }
  }

  lemma CorrectKeepsInv(m: MatchRow, seasonClosed: bool, side: Side, expected: int, note: string, actor: Actor)
    requires Inv(m)
    ensures var r := CorrectSide(m, seasonClosed, side, expected, note, actor); r.Ok? ==> Inv(r.value)
  {
    hide Inv;
    if CorrectSide(m, seasonClosed, side, expected, note, actor).Ok? {
      SideWritten(m, side, SideState(CorrectionRequested, Some(expected), actor, note), SideCorrection(side, expected, actor, note));
    }
  }

  /** The event type that pinned side states call for. */
  predicate Overridden(expected: int, pinnedHome: SideState, pinnedAway: SideState) {
    !(ApprovedAt(pinnedHome, expected) && ApprovedAt(pinnedAway, expected))
  }

  /** Whatever was pinned, a commit that goes through leaves a true history. */
  lemma AcceptKeepsInv(m: MatchRow, seasonClosed: bool, expected: int, pinnedHome: SideState, pinnedAway: SideState,
                       admin: Option<int>, note: string)
    requires Inv(m)
    ensures var overridden := Overridden(expected, pinnedHome, pinnedAway);
            var r := CommitAccept(m, seasonClosed, expected, overridden, pinnedHome, pinnedAway, admin, note);
            r.Ok? ==> Inv(r.value)
  {
    var overridden := Overridden(expected, pinnedHome, pinnedAway);
    var r := CommitAccept(m, seasonClosed, expected, overridden, pinnedHome, pinnedAway, admin, note);
    if r.Ok? {
      var e := AdminDecision(overridden, expected, admin, note, pinnedHome.state, pinnedHome.note, pinnedAway.state, pinnedAway.note);
      assert DecisionIsTrue(m.log, e);
      HistoryGrows(m.log, e);
    }
  }

  /** The older calls, as single steps. */
  lemma LegacyKeepsInv(call: LegacyCall, m: MatchRow, seasonClosed: bool)
    requires Inv(m) && CheckLegacy(call, m, seasonClosed).None?
    ensures Inv(WriteLegacy(call, m))
  {
  }

  lemma WeekKeepsInv(m: MatchRow, admin: Option<int>)
    requires Inv(m)
    ensures Inv(WeekClosing(m, admin)) && Inv(WeekReopening(m))
    ensures m.completed && m.acceptance.Some? ==> WeekClosing(m, admin).processing.Some?
  {
  }

  // ---- What a refusal means ------------------------------------------------------------------

  /** The lock reported is there, and none that is looked at before it: season, week, processing, acceptance. */
  predicate FirstLock(e: Refusal, m: MatchRow, seasonClosed: bool) {
    match e
    case SeasonClosed => seasonClosed
    case WeekClosed => m.weekClosed && !seasonClosed
    case AlreadyProcessed => m.processing.Some? && !m.weekClosed && !seasonClosed
    case AlreadyAccepted => m.acceptance.Some? && m.processing.None? && !m.weekClosed && !seasonClosed
    case _ => false
  }

  /** The reason given for refusing a score edit is a true one, and the first. */
  lemma ScoreEditRefusalIsTrue(m: MatchRow, seasonClosed: bool, expected: Option<int>)
    ensures match Advance(m, seasonClosed, expected)
            case Ok(_) => StillEditable(m, seasonClosed) && (expected.Some? ==> m.revision == expected.value)
            case Err(StaleRevision) => expected.Some? && m.revision != expected.value
            case Err(e) => (expected.Some? ==> m.revision == expected.value) && FirstLock(e, m, seasonClosed)
  {
  }

  lemma TeamActionRefusalIsTrue(m: MatchRow, seasonClosed: bool, side: Side, expected: int, note: string, actor: Actor)
    ensures match ApproveSide(m, seasonClosed, side, expected, actor)
            case Ok(_) => StillEditable(m, seasonClosed) && m.completed && m.revision == expected
            case Err(e) => TrueRefusal(e, m, seasonClosed, side, expected) && e != InvalidTransition
    ensures CorrectSide(m, seasonClosed, side, expected, note, actor).Err? <==>
            ApproveSide(m, seasonClosed, side, expected, actor).Err?
    ensures match WithdrawSide(m, seasonClosed, side, expected, actor)
            case Ok(_) => StillEditable(m, seasonClosed) && m.At(side).state == Approved && m.revision == expected
            case Err(e) => TrueRefusal(e, m, seasonClosed, side, expected) && e != NotScored
  {
  }

  predicate TrueRefusal(e: Refusal, m: MatchRow, seasonClosed: bool, side: Side, expected: int) {
    match e
    case StaleRevision => m.revision != expected
    case NotScored => !m.completed && StillEditable(m, seasonClosed) && m.revision == expected
    case InvalidTransition =>
      (if side.Home? then m.home else m.away).state != Approved && StillEditable(m, seasonClosed) && m.revision == expected
    case _ => FirstLock(e, m, seasonClosed) && m.revision == expected
  }

  lemma AcceptRefusalIsTrue(m: MatchRow, seasonClosed: bool, expected: int, pinnedHome: SideState, pinnedAway: SideState,
                            admin: Option<int>, note: string)
    ensures match GuardedAccept(m, seasonClosed, expected, pinnedHome, pinnedAway, admin, note)
            case Ok(_) => StillEditable(m, seasonClosed) && m.completed && m.revision == expected
            case Err(StaleRevision) => m.revision != expected
            case Err(NotScored) => !m.completed && !m.weekClosed && !seasonClosed && m.revision == expected
            case Err(TeamStateChanged) =>
              && (!SamePin(m.home, pinnedHome) || !SamePin(m.away, pinnedAway))
              && m.completed && StillEditable(m, seasonClosed) && m.revision == expected
            case Err(e) =>
              FirstLock(e, m, seasonClosed) && m.revision == expected && (e == AlreadyProcessed || e == AlreadyAccepted ==> m.completed)
  {
  }
}
