/**
 The store and the service calls on it, updating rows in place. Each method is proved to take
 the step of the protocol that ApprovalRuns reasons about.
 */
module ApprovalStore {
  import opened Prelude
  import opened MatchRecords
  import opened MatchApproval
  import opened ApprovalInvariants
  import opened ApprovalRuns
  import opened CloseChecks

  /** What the first phase of an admin acceptance hands to the second. */
  datatype Decision = Decision(overridden: bool, pinnedHome: SideState, pinnedAway: SideState)

  datatype CloseReport = CloseReport(written: seq<Ack>, processed: nat)

  datatype CloseFailure = NotAllowed(why: Refusal) | NotReady(error: CloseError)

  class RoundStore {
    var rows: map<int, MatchRow>
    var closedSeasons: set<int>
    var closedWeeks: set<(int, int)>

    constructor ()
      ensures LeagueInv(State()) && rows == map[]
    {
      rows, closedSeasons, closedWeeks := map[], {}, {};
    }

    function State(): League
      reads this
    {
      League(rows, closedSeasons, closedWeeks)
    }

    /** Insert a new match. */
    method AddMatch(id: int, m: MatchRow)
      requires id !in rows && Fresh(m) && (m.weekClosed <==> (m.season, m.week) in closedWeeks)
      modifies this`rows
      ensures rows == old(rows)[id := m]
      ensures old(LeagueInv(State())) ==> LeagueInv(State())
    {
      rows := rows[id := m];
    }

    // ---- Guarded writes ------------------------------------------------------------------

    /** Reset one side if it is not pending, with its history entry. */
    method ClearSide(id: int, side: Side)
      requires id in rows
      modifies this`rows
      ensures rows == old(rows)[id := Cleared(old(rows[id]), side)]
    {
      var m := rows[id];
      if m.At(side).state == Pending {
        assert rows[id := m] == rows;
        return;
      }
      rows := rows[id := m.With(side, PENDING)];
      rows := rows[id := rows[id].Logged(SideCleared(side, m.revision))];
    }

    method AdvanceScoreRevisionForEdit(id: int, expected: Option<int>) returns (r: Result<int, Refusal>)
      modifies this`rows
      ensures id !in old(rows) ==> r == Err(NotFound) && rows == old(rows)
      ensures id in old(rows) ==>
                match Advance(old(rows[id]), old(State().SeasonClosedFor(id)), expected)
                case Ok(m) => r == Ok(m.revision) && rows == old(rows)[id := m]
                case Err(e) => r == Err(e) && rows == old(rows)
    {
      if id !in rows {
        return Err(NotFound);
      }
      var m, seasonClosed := rows[id], rows[id].season in closedSeasons;
      if !((expected.None? || m.revision == expected.value) && StillEditable(m, seasonClosed)) {
        return Err(ClassifyScoreEdit(m, seasonClosed, expected));
      }
      rows := rows[id := m.(revision := m.revision + 1)];
      ClearSide(id, Home);
      ClearSide(id, Away);
      return Ok(rows[id].revision);
    }

    /** One conditional update of a side, with its history entry. */
    method SetSide(id: int, side: Side, state: SideState, e: Event)
      requires id in rows
      modifies this`rows
      ensures rows == old(rows)[id := old(rows[id]).With(side, state).Logged(e)]
    {
      rows := rows[id := rows[id].With(side, state)];
      rows := rows[id := rows[id].Logged(e)];
    }

    // ---- Edits: one transaction each ---------------------------------------------------------

    /** SaveRounds, SubmitResults and ClearResults: advance first, then write; a failure rolls back. */
    method EditScores(id: int, expected: Option<int>, body: EditBody) returns (r: Result<int, Refusal>)
      modifies this`rows
      ensures r.Err? ==> rows == old(rows)
      ensures State() == Next(old(State()), EditMatch(id, expected, body))
      ensures match Apply(old(State()), EditMatch(id, expected, body))
              case Ok(after) => id in after.rows && r == Ok(after.rows[id].revision)
              case Err(e) => r == Err(e)
    {
      var before := rows;
      r := AdvanceScoreRevisionForEdit(id, expected);
      if r.Err? {
        return;
      }
      hide Advance;
      var written := WriteBody(id, body);
      if !written {
        rows := before;
        return Err(EditFailed);
      }
    }

    /** What an edit writes once the revision has advanced. */
    method WriteBody(id: int, body: EditBody) returns (ok: bool)
      requires id in rows
      modifies this`rows
      ensures ok <==> Edited(old(rows[id]), body).Ok?
      ensures rows == if ok then old(rows)[id := Edited(old(rows[id]), body).value] else old(rows)
      ensures ok ==> rows[id].revision == old(rows[id]).revision
    {
      var m := rows[id];
      match body {
        case SavesRounds(rounds, results, anyScored) =>
          m := m.(rounds := rounds);
          m := m.(results := results);
          if anyScored {
            m := m.(completed := true);
          }
        case SubmitsResults(results) =>
          m := m.(results := results);
          m := m.(completed := true);
        case ClearsResults =>
          m := m.(results := []);
          m := m.(completed := false);
        case SwapsSubstitute =>
        case Fails =>
          return false;
      }
      rows := rows[id := m];
      ok := true;
    }

    /** SetSubstitute and ClearSubstitute: the guard runs first, and only on a scored match. */
    method GuardScoredLineupChange(found: Option<int>) returns (refused: Option<Refusal>)
      modifies this`rows
      ensures State() == Next(old(State()), SwapSubstitute(found))
      ensures refused == match Apply(old(State()), SwapSubstitute(found)) case Ok(_) => None case Err(e) => Some(e)
    {
      if found.None? || found.value !in rows {
        return None;
      }
      if !rows[found.value].completed {
        assert rows[found.value := rows[found.value]] == rows;
        return None;
      }
      var r := AdvanceScoreRevisionForEdit(found.value, None);
      refused := if r.Err? then Some(r.error) else None;
    }

    // ---- Team actions --------------------------------------------------------------------------

    method ApproveTeamSide(id: int, side: Side, revision: int, actor: Actor, eligible: bool) returns (refused: Option<Refusal>)
      modifies this`rows
      ensures State() == Next(old(State()), TeamApprove(id, side, revision, actor, eligible))
      ensures refused == match Apply(old(State()), TeamApprove(id, side, revision, actor, eligible))
                         case Ok(_) => None case Err(e) => Some(e)
    {
      refused := TeamCheck(State(), id, actor, eligible);
      if refused.Some? {
        return;
      }
      var m, seasonClosed := rows[id], rows[id].season in closedSeasons;
      if !(m.revision == revision && m.completed && StillEditable(m, seasonClosed)) {
        return Some(ClassifyTeamAction(m, seasonClosed, revision, side, true, false));
      }
      SetSide(id, side, SideState(Approved, Some(revision), actor, ""), SideApproved(side, revision, actor));
    }

    method WithdrawTeamApproval(id: int, side: Side, revision: int, actor: Actor, eligible: bool) returns (refused: Option<Refusal>)
      modifies this`rows
      ensures State() == Next(old(State()), TeamWithdraw(id, side, revision, actor, eligible))
      ensures refused == match Apply(old(State()), TeamWithdraw(id, side, revision, actor, eligible))
                         case Ok(_) => None case Err(e) => Some(e)
    {
      refused := TeamCheck(State(), id, actor, eligible);
      if refused.Some? {
        return;
      }
      var m, seasonClosed := rows[id], rows[id].season in closedSeasons;
      if !(m.revision == revision && m.At(side).state == Approved && StillEditable(m, seasonClosed)) {
        return Some(ClassifyTeamAction(m, seasonClosed, revision, side, false, true));
      }
      SetSide(id, side, PENDING, SideWithdrawn(side, revision, actor));
    }

    method RequestCorrection(id: int, side: Side, revision: int, actor: Actor, eligible: bool, note: string)
      returns (refused: Option<Refusal>)
      modifies this`rows
      ensures State() == Next(old(State()), TeamCorrect(id, side, revision, actor, eligible, note))
      ensures refused == match Apply(old(State()), TeamCorrect(id, side, revision, actor, eligible, note))
                         case Ok(_) => None case Err(e) => Some(e)
    {
      if Blank(note) {
        return Some(NoteRequired);
      }
      refused := TeamCheck(State(), id, actor, eligible);
      if refused.Some? {
        return;
      }
      var m, seasonClosed := rows[id], rows[id].season in closedSeasons;
      if !(m.revision == revision && m.completed && StillEditable(m, seasonClosed)) {
        return Some(ClassifyTeamAction(m, seasonClosed, revision, side, true, false));
      }
      SetSide(id, side, SideState(CorrectionRequested, Some(revision), actor, note), SideCorrection(side, revision, actor, note));
    }

    // ---- Admin acceptance ------------------------------------------------------------------------

    /** First phase: read the row and the locks, decide, and pin what the decision was based on. */
    method DecideAcceptance(id: int, revision: int, override: bool) returns (d: Result<Decision, Refusal>)
      ensures id !in rows ==> d == Err(NotFound)
      ensures id in rows ==>
                match Decide(rows[id], State().SeasonClosedFor(id), rows[id].weekClosed, revision, override)
                case Ok(overridden) => d == Ok(Decision(overridden, rows[id].home, rows[id].away))
                case Err(e) => d == Err(e)
    {
      if id !in rows {
        return Err(NotFound);
      }
      var m := rows[id];
      if revision != m.revision {
        return Err(StaleRevision);
      }
      if m.season in closedSeasons {
        return Err(SeasonClosed);
      }
      if m.weekClosed {
        return Err(WeekClosed);
      }
      if !m.completed {
        return Err(NotScored);
      }
      if m.processing.Some? {
        return Err(AlreadyProcessed);
      }
      if m.acceptance.Some? {
        return Err(AlreadyAccepted);
      }
      var bothApproved := ApprovedAt(m.home, revision) && ApprovedAt(m.away, revision);
      if !bothApproved && !override {
        return Err(OverrideRequired);
      }
      return Ok(Decision(!bothApproved, m.home, m.away));
    }

    /** Second phase: the guarded write and its event commit together or not at all. */
    method CommitAcceptance(id: int, revision: int, d: Decision, admin: Option<int>, note: string) returns (refused: Option<Refusal>)
      modifies this`rows
      ensures id !in old(rows) ==> refused == Some(NotFound) && rows == old(rows)
      ensures id in old(rows) ==>
                match CommitAccept(old(rows[id]), old(State().SeasonClosedFor(id)), revision, d.overridden,
                                   d.pinnedHome, d.pinnedAway, admin, note)
                case Ok(m) => refused.None? && rows == old(rows)[id := m]
                case Err(e) => refused == Some(e) && rows == old(rows)
    {
      if id !in rows {
        return Some(NotFound);
      }
      var m, seasonClosed := rows[id], rows[id].season in closedSeasons;
      if !(&& m.revision == revision && m.completed && StillEditable(m, seasonClosed)
           && SamePin(m.home, d.pinnedHome) && SamePin(m.away, d.pinnedAway)) {
        return Some(ClassifyAdminAccept(m, seasonClosed, revision, d.pinnedHome, d.pinnedAway));
      }
      rows := rows[id := m.(acceptance := Some(Acceptance(admin, note)))];
      rows := rows[id := rows[id].Logged(AdminDecision(d.overridden, revision, admin, note,
        d.pinnedHome.state, d.pinnedHome.note, d.pinnedAway.state, d.pinnedAway.note))];
      return None;
    }

    /** Both phases with nothing in between. */
    method AdminAcceptMatch(id: int, revision: int, override: bool, admin: Option<int>, note: string) returns (refused: Option<Refusal>)
      modifies this`rows
      ensures match AtomicAccept(old(State()), id, revision, override, admin, note)
              case Ok(after) => refused.None? && State() == after
              case Err(e) => refused == Some(e) && State() == old(State())
    {
      UndisturbedIsAtomic(State(), id, revision, override, admin, note);
      var d := DecideAcceptance(id, revision, override);
      if d.Err? {
        return Some(d.error);
      }
      refused := CommitAcceptance(id, revision, d.value, admin, note);
    }

    // ---- The older admin calls ---------------------------------------------------------------------

    method AdminCall(id: int, call: LegacyCall) returns (refused: Option<Refusal>)
      modifies this`rows
      ensures State() == Next(old(State()), Legacy(id, call))
      ensures refused == match Apply(old(State()), Legacy(id, call)) case Ok(_) => None case Err(e) => Some(e)
    {
      if id !in rows {
        return Some(NotFound);
      }
      refused := CheckLegacy(call, rows[id], rows[id].season in closedSeasons);
      if refused.Some? {
        return;
      }
      match call {
        case ApproveMatch(admin, note) =>
          rows := rows[id := rows[id].(acceptance := Some(Acceptance(admin, note)))];
        case ProcessMatch(admin) =>
          rows := rows[id := rows[id].(processing := Some(admin))];
        case UnapproveMatch =>
          rows := rows[id := rows[id].(acceptance := None)];
        case UnprocessMatch =>
          rows := rows[id := rows[id].(processing := None)];
      }
    }

    // ---- Weeks and seasons ---------------------------------------------------------------------------

    /**
     Close the week, if its findings allow: lock its matches, process those accepted but not yet
     processed, and hand back the acknowledgments to keep.
     */
    method CloseTheWeek(season: int, week: int, draft: bool, findings: seq<Finding>, acks: seq<Ack>, admin: Option<int>)
      returns (r: Result<CloseReport, CloseFailure>)
      modifies this`rows, this`closedWeeks
      ensures State() == Next(old(State()), CloseWeek(season, week, CloseCheck(draft, findings, acks).Ok?, admin))
      ensures r == if season in closedSeasons then Err(NotAllowed(SeasonClosed))
                   else match CloseCheck(draft, findings, acks)
                        case Err(e) => Err(NotReady(e))
                        case Ok(written) =>
                          Ok(CloseReport(written, |DueForProcessing(old(rows), WeekMatches(old(State()), season, week))|))
    {
      if season in closedSeasons {
        return Err(NotAllowed(SeasonClosed));
      }
      var checked := CheckClose(draft, findings, acks);
      if checked.Err? {
        return Err(NotReady(checked.error));
      }
      var processed := LockAndProcess(season, week, admin);
      return Ok(CloseReport(checked.value, processed));
    }

    /** The transaction that closes a valid week. */
    method LockAndProcess(season: int, week: int, admin: Option<int>) returns (count: nat)
      requires season !in closedSeasons
      modifies this`rows, this`closedWeeks
      ensures State() == Next(old(State()), CloseWeek(season, week, true, admin))
      ensures count == |DueForProcessing(old(rows), WeekMatches(old(State()), season, week))|
    {
      ghost var before := State();
      var affected := WeekMatches(State(), season, week);
      closedWeeks := closedWeeks + {(season, week)};
      count := LockWeek(affected, admin);
      ghost var after := Apply(before, CloseWeek(season, week, true, admin)).value;
      forall id | id in rows
        ensures id in after.rows && rows[id] == after.rows[id]
      {
      }
      forall id | id in after.rows
        ensures id in rows
      {
      }
      SameMap(rows, after.rows);
    }

    method LockWeek(affected: set<int>, admin: Option<int>) returns (count: nat)
      requires affected <= rows.Keys
      modifies this`rows
      ensures rows.Keys == old(rows).Keys
      ensures forall id :: id in rows ==>
                rows[id] == if id in affected then WeekClosing(old(rows[id]), admin) else old(rows[id])
      ensures count == |DueForProcessing(old(rows), affected)|
    {
      var remaining := affected;
      count := 0;
      while remaining != {}
        invariant remaining <= affected && rows.Keys == old(rows).Keys
        invariant forall id :: id in rows ==>
                    rows[id] == if id in affected && id !in remaining then WeekClosing(old(rows[id]), admin) else old(rows[id])
        invariant count == |DueForProcessing(old(rows), affected - remaining)|
        decreases remaining
      {
        ghost var _ := SomeElement(remaining);
        var id :| id in remaining;
        ghost var due := DueForProcessing(old(rows), affected - remaining);
        var processed := LockMatch(id, admin);
        count := count + if processed then 1 else 0;
        DueGrows(old(rows), affected - remaining, id);
        assert affected - remaining + {id} == affected - (remaining - {id});
        remaining := remaining - {id};
      }
      assert affected - remaining == affected;
    }

    method LockMatch(id: int, admin: Option<int>) returns (processed: bool)
      requires id in rows
      modifies this`rows
      ensures rows == old(rows)[id := WeekClosing(old(rows[id]), admin)]
      ensures processed <==> IsDue(old(rows[id]))
    {
      var m := rows[id];
      rows := rows[id := m.(weekClosed := true)];
      processed := IsDue(m);
      if processed {
        rows := rows[id := rows[id].(processing := Some(admin))];
      }
    }

    method ReopenTheWeek(season: int, week: int) returns (refused: Option<Refusal>)
      modifies this`rows, this`closedWeeks
      ensures State() == Next(old(State()), ReopenWeek(season, week))
      ensures refused == match Apply(old(State()), ReopenWeek(season, week)) case Ok(_) => None case Err(e) => Some(e)
    {
      if season in closedSeasons {
        return Some(SeasonClosed);
      }
      ghost var before := State();
      var affected := WeekMatches(State(), season, week);
      if affected == {} {
        return Some(NotFound);
      }
      if (season, week) !in closedWeeks {
        return Some(WeekNotClosed);
      }
      closedWeeks := closedWeeks - {(season, week)};
      UnlockWeek(affected);
      ghost var after := Apply(before, ReopenWeek(season, week)).value;
      forall id | id in rows
        ensures id in after.rows && rows[id] == after.rows[id]
      {
      }
      forall id | id in after.rows
        ensures id in rows
      {
      }
      SameMap(rows, after.rows);
      return None;
    }

    method UnlockWeek(affected: set<int>)
      requires affected <= rows.Keys
      modifies this`rows
      ensures rows.Keys == old(rows).Keys
      ensures forall id :: id in rows ==>
                rows[id] == if id in affected then WeekReopening(old(rows[id])) else old(rows[id])
    {
      var remaining := affected;
      while remaining != {}
        invariant remaining <= affected && rows.Keys == old(rows).Keys
        invariant forall id :: id in rows ==>
                    rows[id] == if id in affected && id !in remaining then WeekReopening(old(rows[id])) else old(rows[id])
        decreases remaining
      {
        ghost var _ := SomeElement(remaining);
        var id :| id in remaining;
        rows := rows[id := rows[id].(weekClosed := false)];
        remaining := remaining - {id};
      }
    }

    method SetSeasonClosed(season: int, closed: bool)
      modifies this`closedSeasons
      ensures State() == Next(old(State()), if closed then CloseSeason(season) else ReopenSeason(season))
    {
      closedSeasons := if closed then closedSeasons + {season} else closedSeasons - {season};
    }
  }

  predicate IsDue(m: MatchRow) {
    m.completed && m.acceptance.Some? && m.processing.None?
  }

  /** The matches of a set that closing their week will process. */
  ghost function DueForProcessing(rows: map<int, MatchRow>, ids: set<int>): set<int> {
    set id | id in ids && id in rows && IsDue(rows[id])
  }

  lemma DueGrows(rows: map<int, MatchRow>, ids: set<int>, id: int)
    requires id !in ids && id in rows
    ensures |DueForProcessing(rows, ids + {id})| == |DueForProcessing(rows, ids)| + if IsDue(rows[id]) then 1 else 0
  {
    hide IsDue;
    if IsDue(rows[id]) {
      assert DueForProcessing(rows, ids + {id}) == DueForProcessing(rows, ids) + {id};
    } else {
      assert DueForProcessing(rows, ids + {id}) == DueForProcessing(rows, ids);
    }
  }
}
