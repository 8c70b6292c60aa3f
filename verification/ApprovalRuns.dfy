/**
 The whole protocol as steps on a league of matches, and what holds over every run: the
 invariant, the meaning of the score revision, the freezing of locked matches, and the
 two-phase admin acceptance seen as one atomic decision.
 */
module ApprovalRuns {
  import opened Prelude
  import opened MatchRecords
  import opened MatchApproval
  import opened ApprovalInvariants

  datatype League = League(
    rows: map<int, MatchRow>,
    closedSeasons: set<int>,
    closedWeeks: set<(int, int)>)
  {
    predicate SeasonClosedFor(id: int) {
      id in rows && rows[id].season in closedSeasons
    }

    function Replace(id: int, m: MatchRow): League {
      this.(rows := rows[id := m])
    }
  }

  /** One transaction. AdminCommit is the second phase of an acceptance, with whatever was pinned. */
  datatype Step =
    | EditMatch(id: int, expected: Option<int>, body: EditBody)
    | SwapSubstitute(found: Option<int>)
    | TeamApprove(id: int, side: Side, revision: int, actor: Actor, eligible: bool)
    | TeamWithdraw(id: int, side: Side, revision: int, actor: Actor, eligible: bool)
    | TeamCorrect(id: int, side: Side, revision: int, actor: Actor, eligible: bool, note: string)
    | AdminCommit(id: int, revision: int, pinnedHome: SideState, pinnedAway: SideState, admin: Option<int>, note: string)
    | Legacy(id: int, call: LegacyCall)
    | CloseWeek(season: int, week: int, valid: bool, admin: Option<int>)
    | ReopenWeek(season: int, week: int)
    | CloseSeason(season: int)
    | ReopenSeason(season: int)

  /** An empty note, or one of blanks only. */
  predicate Blank(note: string) {
    forall c :: c in note ==> c in {' ', '\t', '\n', '\r'}
  }

  function Stored(l: League, id: int, r: Result<MatchRow, Refusal>): Result<League, Refusal>
    requires id in l.rows
  {
    match r
    case Ok(m) => Ok(l.Replace(id, m))
    case Err(e) => Err(e)
  }

  /** The checks before a team action: a linked player, the match, the player's eligibility. */
  function TeamCheck(l: League, id: int, actor: Actor, eligible: bool): Option<Refusal> {
    if actor.Nobody? || actor.playerID.None? then Some(Ineligible)
    else if id !in l.rows then Some(NotFound)
    else if !eligible then Some(Ineligible)
    else None
  }

  function WeekMatches(l: League, season: int, week: int): set<int> {
    set id | id in l.rows && l.rows[id].season == season && l.rows[id].week == week
  }

  function Apply(l: League, s: Step): Result<League, Refusal> {
    match s
    case EditMatch(id, expected, body) =>
      if id !in l.rows then Err(NotFound)
      else Stored(l, id, Edit(l.rows[id], l.SeasonClosedFor(id), expected, body))
    case SwapSubstitute(found) =>
      if found.None? || found.value !in l.rows then Ok(l)
      else Stored(l, found.value, Substitute(l.rows[found.value], l.SeasonClosedFor(found.value)))
    case TeamApprove(id, side, revision, actor, eligible) =>
      var check := TeamCheck(l, id, actor, eligible);
      if check.Some? then Err(check.value)
      else Stored(l, id, ApproveSide(l.rows[id], l.SeasonClosedFor(id), side, revision, actor))
    case TeamWithdraw(id, side, revision, actor, eligible) =>
      var check := TeamCheck(l, id, actor, eligible);
      if check.Some? then Err(check.value)
      else Stored(l, id, WithdrawSide(l.rows[id], l.SeasonClosedFor(id), side, revision, actor))
    case TeamCorrect(id, side, revision, actor, eligible, note) =>
      var check := TeamCheck(l, id, actor, eligible);
      if Blank(note) then Err(NoteRequired)
      else if check.Some? then Err(check.value)
      else Stored(l, id, CorrectSide(l.rows[id], l.SeasonClosedFor(id), side, revision, note, actor))
    case AdminCommit(id, revision, pinnedHome, pinnedAway, admin, note) =>
      if id !in l.rows then Err(NotFound)
      else Stored(l, id, CommitAccept(l.rows[id], l.SeasonClosedFor(id), revision,
        Overridden(revision, pinnedHome, pinnedAway), pinnedHome, pinnedAway, admin, note))
    case Legacy(id, call) =>
      if id !in l.rows then Err(NotFound)
      else
        var check := CheckLegacy(call, l.rows[id], l.SeasonClosedFor(id));
        if check.Some? then Err(check.value) else Ok(l.Replace(id, WriteLegacy(call, l.rows[id])))
    case CloseWeek(season, week, valid, admin) =>
      if season in l.closedSeasons then Err(SeasonClosed)
      else if !valid then Err(WeekInvalid)
      else Ok(l.(closedWeeks := l.closedWeeks + {(season, week)},
        rows := map id | id in l.rows ::
          if id in WeekMatches(l, season, week) then WeekClosing(l.rows[id], admin) else l.rows[id]))
    case ReopenWeek(season, week) =>
      if season in l.closedSeasons then Err(SeasonClosed)
      else if WeekMatches(l, season, week) == {} then Err(NotFound)
      else if (season, week) !in l.closedWeeks then Err(WeekNotClosed)
      else Ok(l.(closedWeeks := l.closedWeeks - {(season, week)},
        rows := map id | id in l.rows ::
          if id in WeekMatches(l, season, week) then WeekReopening(l.rows[id]) else l.rows[id]))
    case CloseSeason(season) => Ok(l.(closedSeasons := l.closedSeasons + {season}))
    case ReopenSeason(season) => Ok(l.(closedSeasons := l.closedSeasons - {season}))
  }

  /** The league after a step; a refused step leaves it as it was. */
  function Next(l: League, s: Step): League {
    match Apply(l, s)
    case Ok(after) => after
    case Err(_) => l
  }

  function Run(l: League, steps: seq<Step>): League
    decreases |steps|
  {
    if steps == [] then l else Run(Next(l, steps[0]), steps[1..])
  }

  // ---- The invariant over every run ----------------------------------------------------

  ghost predicate LeagueInv(l: League) {
    && (forall id :: id in l.rows ==> Inv(l.rows[id]))
    && (forall id :: id in l.rows ==> LockFits(l, id))
  }

  /** A match is locked with its week. */
  ghost predicate LockFits(l: League, id: int)
    requires id in l.rows
  {
    l.rows[id].weekClosed <==> (l.rows[id].season, l.rows[id].week) in l.closedWeeks
  }

  /** The match a step is about, if it is about one. */
  function Subject(s: Step): Option<int> {
    match s
    case EditMatch(id, _, _) => Some(id)
    case SwapSubstitute(found) => found
    case TeamApprove(id, _, _, _, _) => Some(id)
    case TeamWithdraw(id, _, _, _, _) => Some(id)
    case TeamCorrect(id, _, _, _, _, _) => Some(id)
    case AdminCommit(id, _, _, _, _, _) => Some(id)
    case Legacy(id, _) => Some(id)
    case _ => None
  }

  predicate SamePlace(m: MatchRow, n: MatchRow) {
    m.season == n.season && m.week == n.week && m.weekClosed == n.weekClosed
  }

  /** What a step about one match makes of its row. */
  function RowAfter(l: League, s: Step, id: int): Result<MatchRow, Refusal>
    requires id in l.rows
  {
    var m, closed := l.rows[id], l.SeasonClosedFor(id);
    match s
    case EditMatch(_, expected, body) => Edit(m, closed, expected, body)
    case SwapSubstitute(_) => Substitute(m, closed)
    case TeamApprove(_, side, revision, actor, _) => ApproveSide(m, closed, side, revision, actor)
    case TeamWithdraw(_, side, revision, actor, _) => WithdrawSide(m, closed, side, revision, actor)
    case TeamCorrect(_, side, revision, actor, _, note) => CorrectSide(m, closed, side, revision, note, actor)
    case AdminCommit(_, revision, pinnedHome, pinnedAway, admin, note) =>
      CommitAccept(m, closed, revision, Overridden(revision, pinnedHome, pinnedAway), pinnedHome, pinnedAway, admin, note)
    case Legacy(_, call) => Ok(WriteLegacy(call, m))
    case _ => Ok(m)
  }

  /** A step that goes through replaces its row, if there is one, and nothing else. */
  lemma SubjectReplaced(l: League, s: Step)
    requires Subject(s).Some? && Apply(l, s).Ok?
    ensures Subject(s).value !in l.rows ==> Apply(l, s).value == l
    ensures Subject(s).value in l.rows ==>
              RowAfter(l, s, Subject(s).value).Ok? &&
              Apply(l, s).value == l.Replace(Subject(s).value, RowAfter(l, s, Subject(s).value).value)
  {
    hide Edit, Substitute, ApproveSide, WithdrawSide, CorrectSide, CommitAccept, WriteLegacy, Overridden, CheckLegacy, Blank;
  }

  lemma RowStaysInPlace(l: League, s: Step, id: int)
    requires id in l.rows && RowAfter(l, s, id).Ok?
    ensures SamePlace(l.rows[id], RowAfter(l, s, id).value)
  {
    hide Overridden, SamePin, ApprovedAt;
  }

  /** A step about one match changes that row only, and never its season, week or week lock. */
  lemma OnlyTheSubject(l: League, s: Step)
    requires Subject(s).Some? && Apply(l, s).Ok?
    ensures var after, id := Apply(l, s).value, Subject(s).value;
            && after.closedSeasons == l.closedSeasons && after.closedWeeks == l.closedWeeks
            && after.rows.Keys == l.rows.Keys
            && (forall other :: other in l.rows && other != id ==> after.rows[other] == l.rows[other])
            && (id in l.rows ==> SamePlace(l.rows[id], after.rows[id]))
  {
    hide Apply, RowAfter;
    SubjectReplaced(l, s);
    if Subject(s).value in l.rows {
      RowStaysInPlace(l, s, Subject(s).value);
    }
    hide SamePlace;
  }

  lemma SubjectKeepsInv(l: League, s: Step)
    requires Subject(s).Some? && Subject(s).value in l.rows && Apply(l, s).Ok?
    requires Inv(l.rows[Subject(s).value])
    ensures Subject(s).value in Apply(l, s).value.rows && Inv(Apply(l, s).value.rows[Subject(s).value])
  {
    hide Apply;
    SubjectReplaced(l, s);
    AppliedLegacyPassed(l, s);
    RowKeepsInv(l, s, Subject(s).value);
    hide Inv, RowAfter;
  }

  lemma RowKeepsInv(l: League, s: Step, id: int)
    requires id in l.rows && Inv(l.rows[id]) && RowAfter(l, s, id).Ok? && !LegacyRefused(l, s, id)
    ensures Inv(RowAfter(l, s, id).value)
  {
    hide Inv, Edit, ApproveSide, WithdrawSide, CorrectSide, CommitAccept, WriteLegacy;
    var m, closed := l.rows[id], l.SeasonClosedFor(id);
    match s
    case EditMatch(_, expected, body) =>
      EditKeepsInv(m, closed, expected, body);
    case SwapSubstitute(_) =>
      if m.completed {
        EditKeepsInv(m, closed, None, SwapsSubstitute);
      }
    case TeamApprove(_, side, revision, actor, _) =>
      ApproveKeepsInv(m, closed, side, revision, actor);
    case TeamWithdraw(_, side, revision, actor, _) =>
      WithdrawKeepsInv(m, closed, side, revision, actor);
    case TeamCorrect(_, side, revision, actor, _, note) =>
      CorrectKeepsInv(m, closed, side, revision, note, actor);
    case AdminCommit(_, revision, pinnedHome, pinnedAway, admin, note) =>
      AcceptKeepsInv(m, closed, revision, pinnedHome, pinnedAway, admin, note);
    case Legacy(_, call) =>
      LegacyKeepsInv(call, m, closed);
    case _ =>
  }

  /** The check of an older call refuses it. */
  predicate LegacyRefused(l: League, s: Step, id: int) {
    s.Legacy? && id in l.rows && CheckLegacy(s.call, l.rows[id], l.SeasonClosedFor(id)).Some?
  }

  lemma AppliedLegacyPassed(l: League, s: Step)
    requires Subject(s).Some? && Apply(l, s).Ok?
    ensures !LegacyRefused(l, s, Subject(s).value)
  {
    hide CheckLegacy;
  }

  /** Main result, one step: whatever is attempted, the invariant survives. */
  lemma StepKeepsInv(l: League, s: Step)
    requires LeagueInv(l)
    ensures LeagueInv(Next(l, s))
  {
    hide Inv, Apply;
    if Apply(l, s).Ok? {
      if Subject(s).Some? {
        OnlyTheSubject(l, s);
        if Subject(s).value in l.rows {
          SubjectKeepsInv(l, s);
        }
      } else if s.SwapSubstitute? {
        NoMatchNoEffect(l, s);
      } else {
        WeekStepKeepsInv(l, s);
      }
    }
  }

  lemma NoMatchNoEffect(l: League, s: Step)
    requires s.SwapSubstitute? && s.found.None?
    ensures Apply(l, s) == Ok(l)
  {
  }

  lemma WeekStepKeepsInv(l: League, s: Step)
    requires LeagueInv(l) && Subject(s).None? && !s.SwapSubstitute? && Apply(l, s).Ok?
    ensures LeagueInv(Apply(l, s).value)
  {
    hide Inv, WeekClosing, WeekReopening;
    forall id | id in l.rows
      ensures id in Apply(l, s).value.rows && Inv(Apply(l, s).value.rows[id])
      ensures LockFits(Apply(l, s).value, id)
    {
      assert LockFits(l, id);
      WeekKeepsInv(l.rows[id], if s.CloseWeek? then s.admin else None);
      WeekMovesLock(l.rows[id], if s.CloseWeek? then s.admin else None);
    }
  }

  lemma WeekMovesLock(m: MatchRow, admin: Option<int>)
    ensures WeekClosing(m, admin).weekClosed && !WeekReopening(m).weekClosed
    ensures WeekClosing(m, admin).season == m.season && WeekClosing(m, admin).week == m.week
    ensures WeekReopening(m).season == m.season && WeekReopening(m).week == m.week
  {
  }

  /** Main result, all runs: from fresh matches every reachable state satisfies the invariant. */
  lemma {:induction false} RunKeepsInv(l: League, steps: seq<Step>)
    requires LeagueInv(l)
    ensures LeagueInv(Run(l, steps))
    decreases |steps|
  {
    if steps != [] {
      StepKeepsInv(l, steps[0]);
      RunKeepsInv(Next(l, steps[0]), steps[1..]);
    }
  }

  // ---- What the revision counts ----------------------------------------------------------

  /** The step goes through as a score edit of the match. */
  predicate CommitsEdit(l: League, s: Step, id: int) {
    && Apply(l, s).Ok? && id in l.rows
    && (|| (s.EditMatch? && s.id == id)
        || (s.SwapSubstitute? && s.found == Some(id) && l.rows[id].completed))
  }

  function EditsCommitted(l: League, steps: seq<Step>, id: int): nat
    decreases |steps|
  {
    if steps == [] then 0
    else (if CommitsEdit(l, steps[0], id) then 1 else 0) + EditsCommitted(Next(l, steps[0]), steps[1..], id)
  }

  lemma AdvanceAddsOne(m: MatchRow, seasonClosed: bool, expected: Option<int>, body: EditBody)
    requires Edit(m, seasonClosed, expected, body).Ok?
    ensures Edit(m, seasonClosed, expected, body).value.revision == m.revision + 1
    ensures expected.Some? ==> m.revision == expected.value
  {
  }

  /** A row keeps existing, and its revision moves by one exactly when an edit commits. */
  lemma {:induction false} RevisionStep(l: League, s: Step, id: int)
    requires id in l.rows
    ensures id in Next(l, s).rows
    ensures Next(l, s).rows[id].revision == l.rows[id].revision + if CommitsEdit(l, s, id) then 1 else 0
  {
    if Apply(l, s).Ok? {
      if Subject(s) == Some(id) {
        SubjectRevision(l, s);
      } else if Subject(s).Some? {
        OnlyTheSubject(l, s);
        hide Apply;
      }
    }
  }

  lemma SubjectRevision(l: League, s: Step)
    requires Subject(s).Some? && Subject(s).value in l.rows && Apply(l, s).Ok?
    ensures var id := Subject(s).value;
            id in Apply(l, s).value.rows
            && Apply(l, s).value.rows[id].revision == l.rows[id].revision + if CommitsEdit(l, s, id) then 1 else 0
  {
    var id := Subject(s).value;
    if s.EditMatch? {
      AdvanceAddsOne(l.rows[id], l.SeasonClosedFor(id), s.expected, s.body);
    } else if s.SwapSubstitute? && l.rows[id].completed {
      AdvanceAddsOne(l.rows[id], l.SeasonClosedFor(id), None, SwapsSubstitute);
    }
  }

  /** Main result: over any run the revision grows by exactly the number of committed edits. */
  lemma {:induction false} RevisionCountsEdits(l: League, steps: seq<Step>, id: int)
    requires id in l.rows
    ensures id in Run(l, steps).rows
    ensures Run(l, steps).rows[id].revision == l.rows[id].revision + EditsCommitted(l, steps, id)
    decreases |steps|
  {
    if steps != [] {
      hide Next, CommitsEdit;
      RevisionStep(l, steps[0], id);
      RevisionCountsEdits(Next(l, steps[0]), steps[1..], id);
    }
  }

  /** How many edits naming the same expected revision go through in a run. */
  function CommitsNaming(l: League, steps: seq<Step>, id: int, revision: int): nat
    decreases |steps|
  {
    if steps == [] then 0
    else
      var s := steps[0];
      (if CommitsEdit(l, s, id) && s.EditMatch? && s.expected == Some(revision) then 1 else 0)
      + CommitsNaming(Next(l, s), steps[1..], id, revision)
  }

  /** Main result: of all edits that name the same revision of a match, at most one goes through. */
  lemma {:induction false} AtMostOneCommits(l: League, steps: seq<Step>, id: int, revision: int)
    ensures CommitsNaming(l, steps, id, revision) <= 1
    ensures id in l.rows && l.rows[id].revision > revision ==> CommitsNaming(l, steps, id, revision) == 0
    decreases |steps|
  {
    if steps != [] {
      var s := steps[0];
      if id in l.rows {
        RevisionStep(l, s, id);
        if CommitsEdit(l, s, id) && s.EditMatch? {
          AdvanceAddsOne(l.rows[id], l.SeasonClosedFor(id), s.expected, s.body);
        }
      }
      AtMostOneCommits(Next(l, s), steps[1..], id, revision);
    }
  }

  // ---- Locked matches are frozen -----------------------------------------------------------

  /** Everything an approval or a processing vouches for. */
  predicate SameScores(m: MatchRow, n: MatchRow) {
    && m.rounds == n.rounds && m.results == n.results && m.completed == n.completed
    && m.revision == n.revision && m.home == n.home && m.away == n.away && m.log == n.log
  }

  predicate Locked(m: MatchRow) {
    m.acceptance.Some? || m.processing.Some? || m.weekClosed
  }

  /** While a match is accepted, processed or closed, no step touches its scores, sides or history. */
  lemma {:induction false} LockedIsFrozen(l: League, s: Step, id: int)
    requires id in l.rows && Locked(l.rows[id])
    ensures id in Next(l, s).rows && SameScores(l.rows[id], Next(l, s).rows[id])
  {
    if Apply(l, s).Ok? && Subject(s).Some? && Subject(s).value != id {
      OnlyTheSubject(l, s);
      hide Apply;
    }
  }

  predicate Releases(s: Step, id: int, call: LegacyCall) {
    s.Legacy? && s.id == id && s.call == call
  }

  lemma AcceptanceStays(l: League, s: Step, id: int)
    requires id in l.rows && l.rows[id].acceptance.Some? && !Releases(s, id, UnapproveMatch)
    ensures id in Next(l, s).rows && Next(l, s).rows[id].acceptance.Some?
  {
    if Apply(l, s).Ok? && Subject(s).Some? && Subject(s).value != id {
      OnlyTheSubject(l, s);
      hide Apply;
    }
  }

  /** Main result: from acceptance on, a match's scores stand until somebody unapproves it. */
  lemma {:induction false} AcceptedScoresStand(l: League, steps: seq<Step>, id: int)
    requires id in l.rows && l.rows[id].acceptance.Some?
    requires forall k :: 0 <= k < |steps| ==> !Releases(steps[k], id, UnapproveMatch)
    ensures id in Run(l, steps).rows && SameScores(l.rows[id], Run(l, steps).rows[id])
    decreases |steps|
  {
    if steps != [] {
      LockedIsFrozen(l, steps[0], id);
      AcceptanceStays(l, steps[0], id);
      hide Next;
      AcceptedScoresStand(Next(l, steps[0]), steps[1..], id);
    }
  }

  lemma ProcessingStays(l: League, s: Step, id: int)
    requires id in l.rows && l.rows[id].processing.Some? && !Releases(s, id, UnprocessMatch)
    ensures id in Next(l, s).rows && Next(l, s).rows[id].processing.Some?
  {
    if Apply(l, s).Ok? && Subject(s).Some? && Subject(s).value != id {
      OnlyTheSubject(l, s);
      hide Apply;
    }
  }

  /** A processed match cannot even be unapproved: it must be unprocessed first. */
  lemma {:induction false} ProcessedScoresStand(l: League, steps: seq<Step>, id: int)
    requires LeagueInv(l) && id in l.rows && l.rows[id].processing.Some?
    requires forall k :: 0 <= k < |steps| ==> !Releases(steps[k], id, UnprocessMatch)
    ensures id in Run(l, steps).rows && SameScores(l.rows[id], Run(l, steps).rows[id])
    ensures Run(l, steps).rows[id].acceptance.Some?
    decreases |steps|
  {
    if steps == [] {
      assert Inv(l.rows[id]);
    } else {
      LockedIsFrozen(l, steps[0], id);
      ProcessingStays(l, steps[0], id);
      StepKeepsInv(l, steps[0]);
      hide Next, LeagueInv;
      ProcessedScoresStand(Next(l, steps[0]), steps[1..], id);
    }
  }

  // ---- Closed weeks ----------------------------------------------------------------------------

  /** Closing a week locks its matches and processes exactly the accepted ones; nothing else moves. */
  lemma ClosedWeekIsProcessed(l: League, season: int, week: int, valid: bool, admin: Option<int>, id: int)
    requires LeagueInv(l) && id in l.rows && Apply(l, CloseWeek(season, week, valid, admin)).Ok?
    ensures var m, n := l.rows[id], Next(l, CloseWeek(season, week, valid, admin)).rows[id];
            && SameScores(m, n) && n.acceptance == m.acceptance
            && (m.season == season && m.week == week ==> n.weekClosed && (n.processing.Some? <==> n.acceptance.Some?))
            && (n.processing != m.processing ==> m.processing == None && n.processing == Some(admin))
            && (m.season != season || m.week != week ==> n == m)
  {
    assert Inv(l.rows[id]);
  }

  // ---- Admin acceptance in two phases ---------------------------------------------------------

  /** The acceptance as one atomic decision and write on the present row. */
  function AtomicAccept(l: League, id: int, revision: int, override: bool, admin: Option<int>, note: string): Result<League, Refusal> {
    if id !in l.rows then Err(NotFound)
    else
      var m := l.rows[id];
      match Decide(m, l.SeasonClosedFor(id), m.weekClosed, revision, override)
      case Err(e) => Err(e)
      case Ok(overridden) =>
        Ok(l.Replace(id, m.(acceptance := Some(Acceptance(admin, note)))
          .Logged(AdminDecision(overridden, revision, admin, note, m.home.state, m.home.note, m.away.state, m.away.note))))
  }

  /**
   AdminAcceptMatch as it runs: the row is read in state a, the season lock in b, the week lock
   in c, and the guarded transaction runs in d. Anything may have happened in between.
   */
  function TwoPhaseAccept(a: League, b: League, c: League, d: League,
                          id: int, revision: int, override: bool, admin: Option<int>, note: string): Result<League, Refusal> {
    if id !in a.rows then Err(NotFound)
    else
      var read := a.rows[id];
      match Decide(read, b.SeasonClosedFor(id), id in c.rows && c.rows[id].weekClosed, revision, override)
      case Err(e) => Err(e)
      case Ok(overridden) =>
        if id !in d.rows then Err(NotFound)
        else Stored(d, id, CommitAccept(d.rows[id], d.SeasonClosedFor(id), revision, overridden,
          read.home, read.away, admin, note))
  }

  /**
   Main result: under any interference, an acceptance that commits is the atomic acceptance of
   the state it commits in: same decision, same event, same snapshot.
   */
  lemma CommitIsAtomic(a: League, b: League, c: League, d: League,
                       id: int, revision: int, override: bool, admin: Option<int>, note: string)
    requires TwoPhaseAccept(a, b, c, d, id, revision, override, admin, note).Ok?
    ensures TwoPhaseAccept(a, b, c, d, id, revision, override, admin, note)
            == AtomicAccept(d, id, revision, override, admin, note)
  {
  }

  /** Without interference nothing is lost: the two phases accept and refuse exactly as one would. */
  lemma UndisturbedIsAtomic(l: League, id: int, revision: int, override: bool, admin: Option<int>, note: string)
    ensures TwoPhaseAccept(l, l, l, l, id, revision, override, admin, note)
            == AtomicAccept(l, id, revision, override, admin, note)
  {
  }

  /**
   And exactly when it commits: the first phase decides to, one atomic decision at the commit
   would too, and neither side's state, revision or note has moved in between.
   */
  lemma CommitsExactlyWhen(a: League, b: League, c: League, d: League,
                           id: int, revision: int, override: bool, admin: Option<int>, note: string)
    ensures TwoPhaseAccept(a, b, c, d, id, revision, override, admin, note).Ok? <==>
            && id in a.rows && id in d.rows
            && Decide(a.rows[id], b.SeasonClosedFor(id), id in c.rows && c.rows[id].weekClosed, revision, override).Ok?
            && AtomicAccept(d, id, revision, override, admin, note).Ok?
            && SamePin(d.rows[id].home, a.rows[id].home) && SamePin(d.rows[id].away, a.rows[id].away)
  {
  }

  /** A normal acceptance, in any reachable state, has both sides approved at the current revision. */
  lemma {:induction false} AcceptedMeansBothApproved(a: League, b: League, c: League, d: League,
                                  id: int, revision: int, override: bool, admin: Option<int>, note: string)
    requires TwoPhaseAccept(a, b, c, d, id, revision, override, admin, note).Ok?
    ensures var m := TwoPhaseAccept(a, b, c, d, id, revision, override, admin, note).value.rows[id];
            var e := m.log[|m.log| - 1];
            && e.AdminDecision? && e.revision == m.revision == revision
            && e.homeState == m.home.state && e.homeNote == m.home.note
            && e.awayState == m.away.state && e.awayNote == m.away.note
            && (!e.overridden <==> ApprovedAt(m.home, m.revision) && ApprovedAt(m.away, m.revision))
            && (e.overridden ==> override)
  {
    CommitIsAtomic(a, b, c, d, id, revision, override, admin, note);
  }

  // ---- The older calls between their check and their write ------------------------------------

  /** What must still hold when the write of an older call lands. */
  predicate StillFits(call: LegacyCall, m: MatchRow) {
    match call
    case ApproveMatch(_, _) => m.completed
    case ProcessMatch(_) => m.acceptance.Some?
    case UnapproveMatch => m.processing.None?
    case UnprocessMatch => true
  }

  /**
   The older calls check first and then write unconditionally. If the row changes in between,
   the invariant survives exactly when the row written to still fits the call.
   */
  lemma LateWriteKeepsInvExactlyWhen(call: LegacyCall, m: MatchRow)
    requires Inv(m)
    ensures Inv(WriteLegacy(call, m)) <==> StillFits(call, m)
  {
  }

  /**
   And it can change: between the check of ApproveMatch and its write, clearing the results is
   allowed, after which the write leaves an accepted match without scores.
   */
  lemma {:induction false} ApproveCanRaceWithClear(m: MatchRow, admin: Option<int>, note: string)
    requires Inv(m) && CheckApprove(m, false).None? && m.acceptance.None?
    ensures Edit(m, false, None, ClearsResults).Ok?
    ensures var late := WriteLegacy(ApproveMatch(admin, note), Edit(m, false, None, ClearsResults).value);
            late.acceptance.Some? && !late.completed && !Inv(late)
  {
    EditKeepsInv(m, false, None, ClearsResults);
    LateWriteKeepsInvExactlyWhen(ApproveMatch(admin, note), Edit(m, false, None, ClearsResults).value);
  }
}
