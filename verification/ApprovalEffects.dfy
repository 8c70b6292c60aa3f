/**
 What each committed step leaves in its match, field by field, and what a run of steps comes to:
 which sides stand approved, and so when a match is accepted without an override.
 */
module ApprovalEffects {
  import opened Prelude
  import opened MatchRecords
  import opened MatchApproval
  import opened ApprovalRuns

  // ---- When a step goes through ---------------------------------------------------------------

  /** The match is there, neither accepted nor processed, and its week and season are open. */
  predicate Open(l: League, id: int) {
    && id in l.rows && l.rows[id].acceptance == None && l.rows[id].processing == None
    && !l.rows[id].weekClosed && l.rows[id].season !in l.closedSeasons
  }

  /** A player's own account, eligible for the side, acting on the revision that stands. */
  predicate MayAct(l: League, id: int, revision: int, actor: Actor, eligible: bool) {
    && actor.Actor? && actor.playerID.Some? && eligible
    && Open(l, id) && l.rows[id].revision == revision
  }

  ghost predicate Allowed(l: League, s: Step) {
    match s
    case EditMatch(id, expected, body) => Open(l, id) && (expected.Some? ==> expected.value == l.rows[id].revision) && !body.Fails?
    case SwapSubstitute(found) => found.Some? && found.value in l.rows && l.rows[found.value].completed ==> Open(l, found.value)
    case TeamApprove(id, _, revision, actor, eligible) => MayAct(l, id, revision, actor, eligible) && l.rows[id].completed
    case TeamWithdraw(id, side, revision, actor, eligible) =>
      && MayAct(l, id, revision, actor, eligible)
      && (side == Home ==> l.rows[id].home.state == Approved) && (side == Away ==> l.rows[id].away.state == Approved)
    case TeamCorrect(id, _, revision, actor, eligible, note) =>
      && MayAct(l, id, revision, actor, eligible) && l.rows[id].completed
      && exists c :: c in note && c !in {' ', '\t', '\n', '\r'}
    case AdminCommit(id, revision, pinnedHome, pinnedAway, _, _) =>
      && Open(l, id) && l.rows[id].completed && l.rows[id].revision == revision
      && SamePin(l.rows[id].home, pinnedHome) && SamePin(l.rows[id].away, pinnedAway)
    case Legacy(id, call) =>
      && id in l.rows && !l.rows[id].weekClosed && l.rows[id].season !in l.closedSeasons
      && (call.ApproveMatch? ==> l.rows[id].completed && l.rows[id].processing == None)
      && (call.ProcessMatch? ==> l.rows[id].acceptance.Some?)
      && (call.UnapproveMatch? ==> l.rows[id].processing == None)
    case CloseWeek(season, _, valid, _) => season !in l.closedSeasons && valid
    case ReopenWeek(season, week) =>
      && season !in l.closedSeasons && (season, week) in l.closedWeeks
      && exists id :: id in l.rows && l.rows[id].season == season && l.rows[id].week == week
    case _ => true
  }

  /** A step goes through exactly when the present state of the league allows it. */
  lemma GoesThroughExactlyWhen(l: League, s: Step)
    ensures Apply(l, s).Ok? <==> Allowed(l, s)
  {
    match s
    case ReopenWeek(season, week) =>
      if id :| id in l.rows && l.rows[id].season == season && l.rows[id].week == week {
        assert id in WeekMatches(l, season, week);
      }
      if WeekMatches(l, season, week) != {} {
        var id := SomeElement(WeekMatches(l, season, week));
      }
    case TeamCorrect(_, _, _, _, _, note) =>
      assert Blank(note) <==> !exists c :: c in note && c !in {' ', '\t', '\n', '\r'};
    case _ =>
  }

  /** While a season is closed no step changes any of its matches. */
  lemma ClosedSeasonStep(l: League, s: Step, id: int)
    requires id in l.rows && l.rows[id].season in l.closedSeasons
    ensures id in Next(l, s).rows && Next(l, s).rows[id] == l.rows[id]
    ensures s != ReopenSeason(l.rows[id].season) ==> l.rows[id].season in Next(l, s).closedSeasons
  {
    GoesThroughExactlyWhen(l, s);
    if Apply(l, s).Ok? && Subject(s).Some? && Subject(s).value != id {
      OnlyTheSubject(l, s);
      hide Apply;
    }
  }

  /** Main result: over any run that does not reopen the season, its matches stay exactly as they are. */
  lemma {:induction false} ClosedSeasonIsFrozen(l: League, steps: seq<Step>, id: int)
    requires id in l.rows && l.rows[id].season in l.closedSeasons
    requires forall k :: 0 <= k < |steps| ==> steps[k] != ReopenSeason(l.rows[id].season)
    ensures id in Run(l, steps).rows && Run(l, steps).rows[id] == l.rows[id]
    decreases |steps|
  {
    hide Next;
    if steps != [] {
      ClosedSeasonStep(l, steps[0], id);
      ClosedSeasonIsFrozen(Next(l, steps[0]), steps[1..], id);
    }
  }

  // ---- Team actions ------------------------------------------------------------------------

  /** One side has a new state, the other is as it was, one event is logged, and no more. */
  predicate SideSet(m: MatchRow, n: MatchRow, side: Side, state: SideState, e: Event) {
    && (side == Home ==> n.home == state && n.away == m.away)
    && (side == Away ==> n.away == state && n.home == m.home)
    && n.log == m.log + [e]
    && n == m.(home := n.home, away := n.away, log := n.log)
  }

  /** No other match moves, and neither do the locks. */
  predicate OthersStay(l: League, after: League, id: int) {
    && after.closedSeasons == l.closedSeasons && after.closedWeeks == l.closedWeeks
    && after.rows.Keys == l.rows.Keys
    && forall other :: other in l.rows && other != id ==> after.rows[other] == l.rows[other]
  }

  /** A captain's approval is recorded for the captain's side, at the revision that stands. */
  lemma ApprovalLeaves(l: League, id: int, side: Side, revision: int, actor: Actor, eligible: bool)
    requires Apply(l, TeamApprove(id, side, revision, actor, eligible)).Ok?
    ensures var after := Next(l, TeamApprove(id, side, revision, actor, eligible));
            && id in l.rows && OthersStay(l, after, id) && revision == l.rows[id].revision
            && SideSet(l.rows[id], after.rows[id], side, SideState(Approved, Some(revision), actor, ""), SideApproved(side, revision, actor))
  {
  }

  lemma WithdrawalLeaves(l: League, id: int, side: Side, revision: int, actor: Actor, eligible: bool)
    requires Apply(l, TeamWithdraw(id, side, revision, actor, eligible)).Ok?
    ensures var after := Next(l, TeamWithdraw(id, side, revision, actor, eligible));
            && id in l.rows && OthersStay(l, after, id) && revision == l.rows[id].revision
            && SideSet(l.rows[id], after.rows[id], side, SideState(Pending, None, Nobody, ""), SideWithdrawn(side, revision, actor))
  {
  }

  lemma CorrectionLeaves(l: League, id: int, side: Side, revision: int, actor: Actor, eligible: bool, note: string)
    requires Apply(l, TeamCorrect(id, side, revision, actor, eligible, note)).Ok?
    ensures var after := Next(l, TeamCorrect(id, side, revision, actor, eligible, note));
            && id in l.rows && OthersStay(l, after, id) && revision == l.rows[id].revision
            && SideSet(l.rows[id], after.rows[id], side, SideState(CorrectionRequested, Some(revision), actor, note),
                       SideCorrection(side, revision, actor, note))
  {
  }

  // ---- Edits ---------------------------------------------------------------------------------

  function ClearedEvents(m: MatchRow): seq<Event> {
    (if m.home.state == Pending then [] else [SideCleared(Home, m.revision + 1)]) +
    if m.away.state == Pending then [] else [SideCleared(Away, m.revision + 1)]
  }

  /** The scores a match has after an edit. */
  predicate ScoresAfter(m: MatchRow, n: MatchRow, body: EditBody) {
    match body
    case SavesRounds(rounds, results, anyScored) =>
      n.rounds == rounds && n.results == results && (n.completed <==> m.completed || anyScored)
    case SubmitsResults(submitted) => n.rounds == m.rounds && n.results == submitted && n.completed
    case ClearsResults => n.rounds == m.rounds && n.results == [] && !n.completed
    case SwapsSubstitute => n.rounds == m.rounds && n.results == m.results && n.completed == m.completed
    case Fails => false
  }

  /** A committed edit: the new scores under the next revision, no side decided any more, and no more. */
  lemma {:induction false} EditLeaves(l: League, id: int, expected: Option<int>, body: EditBody)
    requires Apply(l, EditMatch(id, expected, body)).Ok?
    ensures var after := Next(l, EditMatch(id, expected, body));
            && id in l.rows && OthersStay(l, after, id)
            && var m, n := l.rows[id], after.rows[id];
            && ScoresAfter(m, n, body)
            && n.revision == m.revision + 1 && (expected.Some? ==> expected.value == m.revision)
            && n.home.state == n.away.state == Pending && n.log == m.log + ClearedEvents(m)
            && n == m.(rounds := n.rounds, results := n.results, completed := n.completed, revision := n.revision,
                       home := n.home, away := n.away, log := n.log)
  {
    AdvanceLeaves(l.rows[id], l.SeasonClosedFor(id), expected);
    hide Advance, ClearedEvents;
  }

  /** An advance bumps the revision, clears the sides that are not pending, and logs each clearing. */
  lemma AdvanceLeaves(m: MatchRow, seasonClosed: bool, expected: Option<int>)
    requires Advance(m, seasonClosed, expected).Ok?
    ensures var a := Advance(m, seasonClosed, expected).value;
            && a.revision == m.revision + 1 && (expected.Some? ==> expected.value == m.revision)
            && a.home.state == a.away.state == Pending && a.log == m.log + ClearedEvents(m)
            && a == m.(revision := a.revision, home := a.home, away := a.away, log := a.log)
  {
    var bumped := m.(revision := m.revision + 1);
    OneSideCleared(bumped, Home);
    OneSideCleared(Cleared(bumped, Home), Away);
    hide Cleared, StillEditable;
  }

  lemma OneSideCleared(m: MatchRow, side: Side)
    ensures var c := Cleared(m, side);
            && (side == Home ==> c.home.state == Pending && c.away == m.away)
            && (side == Away ==> c.away.state == Pending && c.home == m.home)
            && c.log == m.log + (if (if side.Home? then m.home else m.away).state == Pending then [] else [SideCleared(side, m.revision)])
            && c == m.(home := c.home, away := c.away, log := c.log)
  {
  }

  /** Stored rounds change by nothing but a committed save. */
  lemma OnlySavesChangeRounds(l: League, s: Step, id: int)
    requires id in l.rows
    ensures id in Next(l, s).rows
    ensures s.EditMatch? && s.id == id && s.body.SavesRounds? && Apply(l, s).Ok? ==> Next(l, s).rows[id].rounds == s.body.rounds
    ensures !(s.EditMatch? && s.id == id && s.body.SavesRounds? && Apply(l, s).Ok?) ==> Next(l, s).rows[id].rounds == l.rows[id].rounds
  {
    if Apply(l, s).Ok? && Subject(s).Some? && Subject(s).value != id {
      OnlyTheSubject(l, s);
      hide Apply;
    }
  }

  // ---- Admin acceptance and the older calls --------------------------------------------------

  /** A committed acceptance: the admin and the note on record, one event, and the scores as they were. */
  lemma AcceptanceLeaves(l: League, id: int, revision: int, override: bool, admin: Option<int>, note: string)
    requires AtomicAccept(l, id, revision, override, admin, note).Ok?
    ensures var after := AtomicAccept(l, id, revision, override, admin, note).value;
            && id in l.rows && OthersStay(l, after, id)
            && var m, n := l.rows[id], after.rows[id];
            && n.acceptance == Some(Acceptance(admin, note)) && n.log[..|n.log| - 1] == m.log
            && n == m.(acceptance := n.acceptance, log := n.log)
  {
  }

  lemma AdminCallLeaves(l: League, id: int, call: LegacyCall)
    requires Apply(l, Legacy(id, call)).Ok?
    ensures var after := Next(l, Legacy(id, call));
            && id in l.rows && OthersStay(l, after, id)
            && var m, n := l.rows[id], after.rows[id];
            && SameScores(m, n) && SamePlace(m, n)
            && (match call
                case ApproveMatch(admin, note) => n.acceptance == Some(Acceptance(admin, note)) && n.processing == m.processing
                case ProcessMatch(admin) => n.processing == Some(admin) && n.acceptance == m.acceptance
                case UnapproveMatch => n.acceptance == None && n.processing == m.processing
                case UnprocessMatch => n.processing == None && n.acceptance == m.acceptance)
  {
  }

  /** Unapproving undoes an approval, and unprocessing a processing: the league is as it was before. */
  lemma AdminCallsUndo(l: League, id: int, admin: Option<int>, note: string)
    requires id in l.rows
    ensures Apply(l, Legacy(id, ApproveMatch(admin, note))).Ok? && l.rows[id].acceptance.None? ==>
              Run(l, [Legacy(id, ApproveMatch(admin, note)), Legacy(id, UnapproveMatch)]) == l
    ensures Apply(l, Legacy(id, ProcessMatch(admin))).Ok? && l.rows[id].processing.None? ==>
              Run(l, [Legacy(id, ProcessMatch(admin)), Legacy(id, UnprocessMatch)]) == l
  {
    var m := l.rows[id];
    TwoSteps(l, Legacy(id, ApproveMatch(admin, note)), Legacy(id, UnapproveMatch));
    TwoSteps(l, Legacy(id, ProcessMatch(admin)), Legacy(id, UnprocessMatch));
    hide Run;
    BackAgain(l.rows, id, m.(acceptance := Some(Acceptance(admin, note))));
    BackAgain(l.rows, id, m.(processing := Some(admin)));
  }

  lemma BackAgain(rows: map<int, MatchRow>, id: int, m: MatchRow)
    requires id in rows
    ensures rows[id := m][id := rows[id]] == rows
  {
  }

  lemma TwoSteps(l: League, s: Step, t: Step)
    ensures Run(l, [s, t]) == Next(Next(l, s), t)
  {
    hide Next;
    assert [s, t][1..] == [t] && [t][1..] == [];
    assert Run(Next(l, s), [t]) == Run(Next(Next(l, s), t), []);
  }

  /** Reopening a week unlocks its matches, takes back no acceptance and no processing, and nothing else moves. */
  lemma ReopenedWeekIsUnlocked(l: League, season: int, week: int, id: int)
    requires id in l.rows && Apply(l, ReopenWeek(season, week)).Ok?
    ensures var m, n := l.rows[id], Next(l, ReopenWeek(season, week)).rows[id];
            && SameScores(m, n) && n.acceptance == m.acceptance && n.processing == m.processing
            && n.season == m.season && n.week == m.week
            && (m.season == season && m.week == week ==> !n.weekClosed)
            && (m.season != season || m.week != week ==> n == m)
    ensures Next(l, ReopenWeek(season, week)).closedSeasons == l.closedSeasons
    ensures forall w :: w in Next(l, ReopenWeek(season, week)).closedWeeks <==> w in l.closedWeeks && w != (season, week)
  {
  }

  // ---- Which approvals stand after a run ------------------------------------------------------

  lemma {:induction false} RunLast(l: League, steps: seq<Step>)
    requires steps != []
    ensures Run(l, steps) == Next(Run(l, steps[..|steps| - 1]), steps[|steps| - 1])
    decreases |steps|
  {
    hide Next;
    if |steps| > 1 {
      RunLast(Next(l, steps[0]), steps[1..]);
      assert steps[1..][..|steps| - 2] == steps[..|steps| - 1][1..];
    }
  }

  /** The step goes through as an approval of the side. */
  predicate Approves(l: League, s: Step, id: int, side: Side) {
    s.TeamApprove? && s.id == id && s.side == side && Apply(l, s).Ok?
  }

  /** The step goes through as a withdrawal or a correction request of the side, or as an edit of the match. */
  predicate TakesBack(l: League, s: Step, id: int, side: Side) {
    || CommitsEdit(l, s, id)
    || ((s.TeamWithdraw? || s.TeamCorrect?) && s.id == id && s.side == side && Apply(l, s).Ok?)
  }

  predicate ApprovesAt(l: League, steps: seq<Step>, k: nat, id: int, side: Side)
    requires k < |steps|
  {
    Approves(Run(l, steps[..k]), steps[k], id, side)
  }

  predicate TakesBackAt(l: League, steps: seq<Step>, k: nat, id: int, side: Side)
    requires k < |steps|
  {
    TakesBack(Run(l, steps[..k]), steps[k], id, side)
  }

  /** In the course of the run the side was approved, and nothing has taken that back since. */
  ghost predicate ApprovedSince(l: League, steps: seq<Step>, id: int, side: Side) {
    exists k :: 0 <= k < |steps| && ApprovesAt(l, steps, k, id, side) &&
                forall j :: k < j < |steps| ==> !TakesBackAt(l, steps, j, id, side)
  }

  predicate StandsApproved(m: MatchRow, side: Side) {
    ApprovedAt(if side.Home? then m.home else m.away, m.revision)
  }

  lemma OneStepOnApproval(l: League, s: Step, id: int, side: Side)
    requires id in l.rows
    ensures id in Next(l, s).rows
    ensures StandsApproved(Next(l, s).rows[id], side) <==>
            Approves(l, s, id, side) || (StandsApproved(l.rows[id], side) && !TakesBack(l, s, id, side))
  {
    if Apply(l, s).Ok? && Subject(s) == Some(id) {
      SubjectOnApproval(l, s, id, side);
    } else if Apply(l, s).Ok? && Subject(s).Some? {
      OnlyTheSubject(l, s);
      hide Apply;
    }
  }

  lemma SubjectOnApproval(l: League, s: Step, id: int, side: Side)
    requires id in l.rows && Subject(s) == Some(id) && Apply(l, s).Ok?
    ensures id in Next(l, s).rows
    ensures StandsApproved(Next(l, s).rows[id], side) <==>
            Approves(l, s, id, side) || (StandsApproved(l.rows[id], side) && !TakesBack(l, s, id, side))
  {
    match s
    case EditMatch(_, expected, body) =>
      EditLeaves(l, id, expected, body);
      hide Apply;
    case SwapSubstitute(_) =>
      SwapLeaves(l, id);
      hide Apply;
    case TeamApprove(_, t, revision, actor, eligible) =>
      ApprovalLeaves(l, id, t, revision, actor, eligible);
      hide Apply;
    case TeamWithdraw(_, t, revision, actor, eligible) =>
      WithdrawalLeaves(l, id, t, revision, actor, eligible);
      hide Apply;
    case TeamCorrect(_, t, revision, actor, eligible, note) =>
      CorrectionLeaves(l, id, t, revision, actor, eligible, note);
      hide Apply;
    case _ =>
  }

  /** A substitute swap counts as an edit exactly when the match is scored. */
  lemma SwapLeaves(l: League, id: int)
    requires id in l.rows && Apply(l, SwapSubstitute(Some(id))).Ok?
    ensures var m, after := l.rows[id], Next(l, SwapSubstitute(Some(id)));
            && OthersStay(l, after, id)
            && (m.completed ==> after == Next(l, EditMatch(id, None, SwapsSubstitute)) && Apply(l, EditMatch(id, None, SwapsSubstitute)).Ok?
                                && after.rows[id].home.state == after.rows[id].away.state == Pending)
            && (!m.completed ==> after.rows[id] == m)
  {
    if l.rows[id].completed {
      EditLeaves(l, id, None, SwapsSubstitute);
      hide Edit;
    }
  }

  /**
   Main result: after any run a side stands approved exactly when the run approved it and has
   neither withdrawn nor corrected it nor edited the match since.
   */
  lemma {:induction false} ApprovalStandsExactlyWhen(l: League, steps: seq<Step>, id: int, side: Side)
    requires id in l.rows && !StandsApproved(l.rows[id], side)
    ensures id in Run(l, steps).rows
    ensures StandsApproved(Run(l, steps).rows[id], side) <==> ApprovedSince(l, steps, id, side)
    decreases |steps|
  {
    hide *;
    if steps == [] {
      NothingRun(l, id, side);
    } else {
      var n := |steps| - 1;
      ApprovalStandsExactlyWhen(l, steps[..n], id, side);
      RunLast(l, steps);
      OneStepOnApproval(Run(l, steps[..n]), steps[n], id, side);
      OneMoreStep(l, steps, id, side);
    }
  }

  lemma NothingRun(l: League, id: int, side: Side)
    ensures Run(l, []) == l && !ApprovedSince(l, [], id, side)
  {
  }

  lemma OneMoreStep(l: League, steps: seq<Step>, id: int, side: Side)
    requires steps != []
    ensures var n := |steps| - 1;
            var before := Run(l, steps[..n]);
            ApprovedSince(l, steps, id, side) <==>
            Approves(before, steps[n], id, side) || (ApprovedSince(l, steps[..n], id, side) && !TakesBack(before, steps[n], id, side))
  {
    var n := |steps| - 1;
    var init := steps[..n];
    forall k | 0 <= k < n
      ensures ApprovesAt(l, steps, k, id, side) == ApprovesAt(l, init, k, id, side)
      ensures TakesBackAt(l, steps, k, id, side) == TakesBackAt(l, init, k, id, side)
    {
      SameUpTo(l, steps, k, id, side);
    }
    LastStep(l, steps, id, side);
    hide Run, Approves, TakesBack, ApprovesAt, TakesBackAt;
  }

  lemma SameUpTo(l: League, steps: seq<Step>, k: nat, id: int, side: Side)
    requires k < |steps| - 1
    ensures ApprovesAt(l, steps, k, id, side) == ApprovesAt(l, steps[..|steps| - 1], k, id, side)
    ensures TakesBackAt(l, steps, k, id, side) == TakesBackAt(l, steps[..|steps| - 1], k, id, side)
  {
    hide Run, Approves, TakesBack;
    assert steps[..k] == steps[..|steps| - 1][..k];
  }

  lemma LastStep(l: League, steps: seq<Step>, id: int, side: Side)
    requires steps != []
    ensures var n := |steps| - 1;
            && ApprovesAt(l, steps, n, id, side) == Approves(Run(l, steps[..n]), steps[n], id, side)
            && TakesBackAt(l, steps, n, id, side) == TakesBack(Run(l, steps[..n]), steps[n], id, side)
  {
    hide Run, Approves, TakesBack;
  }

  // ---- When a match is accepted -----------------------------------------------------------------

  /**
   Main result: after any run from undecided sides, a match can be accepted exactly when it is
   scored and open and the run leaves both sides approved, or an override is asked for; the event
   says which it was.
   */
  lemma AcceptedExactlyWhen(l: League, steps: seq<Step>, id: int, override: bool, admin: Option<int>, note: string)
    requires id in l.rows && !StandsApproved(l.rows[id], Home) && !StandsApproved(l.rows[id], Away)
    ensures var d := Run(l, steps);
            && id in d.rows
            && var m := d.rows[id];
            var accepted := AtomicAccept(d, id, m.revision, override, admin, note);
            var both := ApprovedSince(l, steps, id, Home) && ApprovedSince(l, steps, id, Away);
            && (accepted.Ok? <==> Open(d, id) && m.completed && (both || override))
            && (accepted.Ok? ==>
                  accepted.value.rows[id].log ==
                  m.log + [AdminDecision(!both, m.revision, admin, note, m.home.state, m.home.note, m.away.state, m.away.note)])
  {
    ApprovalStandsExactlyWhen(l, steps, id, Home);
    ApprovalStandsExactlyWhen(l, steps, id, Away);
    hide Run, ApprovedSince;
  }

  /** Two approvals of a scored match make a normal acceptance possible exactly when they are of different sides. */
  lemma TwoApprovals(l: League, id: int, first: Side, a: Actor, second: Side, b: Actor, admin: Option<int>, note: string)
    requires id in l.rows && l.rows[id].completed && StillEditable(l.rows[id], l.SeasonClosedFor(id))
    requires l.rows[id].home.state == l.rows[id].away.state == Pending
    requires a.Actor? && a.playerID.Some? && b.Actor? && b.playerID.Some?
    ensures var revision := l.rows[id].revision;
            var d := Run(l, [TeamApprove(id, first, revision, a, true), TeamApprove(id, second, revision, b, true)]);
            AtomicAccept(d, id, revision, false, admin, note).Ok? <==> first != second
  {
    var revision := l.rows[id].revision;
    var s, t := TeamApprove(id, first, revision, a, true), TeamApprove(id, second, revision, b, true);
    TwoSteps(l, s, t);
    ApprovalLeaves(l, id, first, revision, a, true);
    var mid := Next(l, s);
    assert Apply(mid, t).Ok?;
    ApprovalLeaves(mid, id, second, revision, b, true);
    hide Apply, Next, Run;
  }
}
