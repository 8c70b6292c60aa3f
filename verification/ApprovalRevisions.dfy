/**
 What the score revision is for: as long as it stands, the scores stand, so whoever decides on a
 revision decides on the scores they were shown.
 */
module ApprovalRevisions {
  import opened Prelude
  import opened MatchRecords
  import opened MatchApproval
  import opened ApprovalInvariants
  import opened ApprovalRuns

  /** The scores themselves, as read by captains and admins. */
  predicate ScoresOf(m: MatchRow, n: MatchRow) {
    m.rounds == n.rounds && m.results == n.results && m.completed == n.completed
  }

  /** Only a committed edit of the match can change its scores. */
  lemma OnlyEditsChangeScores(l: League, s: Step, id: int)
    requires id in l.rows
    ensures id in Next(l, s).rows
    ensures !CommitsEdit(l, s, id) ==> ScoresOf(Next(l, s).rows[id], l.rows[id])
  {
    if Apply(l, s).Ok? && Subject(s).Some? && Subject(s).value != id {
      OnlyTheSubject(l, s);
      hide Apply;
    }
  }

  /** The revision never goes back. */
  lemma {:induction false} RevisionAscends(l: League, steps: seq<Step>, id: int)
    requires id in l.rows
    ensures id in Run(l, steps).rows && Run(l, steps).rows[id].revision >= l.rows[id].revision
  {
    RevisionCountsEdits(l, steps, id);
  }

  /** Main result: over any run that leaves a match's revision as it was, its scores are as they were. */
  lemma {:induction false} SameRevisionSameScores(l: League, steps: seq<Step>, id: int)
    requires id in l.rows && id in Run(l, steps).rows && Run(l, steps).rows[id].revision == l.rows[id].revision
    ensures ScoresOf(Run(l, steps).rows[id], l.rows[id])
    decreases |steps|
  {
    if steps != [] {
      OnlyEditsChangeScores(l, steps[0], id);
      RevisionStep(l, steps[0], id);
      RevisionAscends(Next(l, steps[0]), steps[1..], id);
      hide Next, CommitsEdit, ScoresOf;
      SameRevisionSameScores(Next(l, steps[0]), steps[1..], id);
      hide *;
      SameScoresTwice(Run(l, steps).rows[id], Next(l, steps[0]).rows[id], l.rows[id]);
    }
  }

  lemma SameScoresTwice(a: MatchRow, b: MatchRow, c: MatchRow)
    ensures ScoresOf(a, b) && ScoresOf(b, c) ==> ScoresOf(a, c)
  {
  }

  /**
   Main result: an admin acceptance that commits accepts the scores the admin was shown. The row
   is read in state a, any runs of other steps come between the phases, and d is where it commits.
   */
  lemma AcceptsWhatWasRead(a: League, first: seq<Step>, second: seq<Step>, third: seq<Step>,
                           id: int, revision: int, override: bool, admin: Option<int>, note: string)
    requires var b, c, d := Run(a, first), Run(Run(a, first), second), Run(Run(Run(a, first), second), third);
             TwoPhaseAccept(a, b, c, d, id, revision, override, admin, note).Ok?
    ensures var d := Run(Run(Run(a, first), second), third);
            id in a.rows && id in d.rows && ScoresOf(d.rows[id], a.rows[id])
  {
    var b, c, d := Run(a, first), Run(Run(a, first), second), Run(Run(Run(a, first), second), third);
    CommitsExactlyWhen(a, b, c, d, id, revision, override, admin, note);
    hide Run, TwoPhaseAccept;
    RevisionAscends(a, first, id);
    RevisionAscends(b, second, id);
    RevisionAscends(c, third, id);
    SameRevisionSameScores(a, first, id);
    SameRevisionSameScores(b, second, id);
    SameRevisionSameScores(c, third, id);
  }

  /** A side's approval, wherever it still counts, vouches for the very scores it was given for. */
  lemma ApprovalVouchesForScores(l: League, side: Side, revision: int, actor: Actor, eligible: bool, id: int, steps: seq<Step>)
    requires LeagueInv(l) && Apply(l, TeamApprove(id, side, revision, actor, eligible)).Ok?
    requires var after := Run(Next(l, TeamApprove(id, side, revision, actor, eligible)), steps);
             id in after.rows && ApprovedAt(after.rows[id].At(side), revision)
    ensures var after := Run(Next(l, TeamApprove(id, side, revision, actor, eligible)), steps);
            id in l.rows && after.rows[id].revision == revision && ScoresOf(after.rows[id], l.rows[id])
  {
    var s := TeamApprove(id, side, revision, actor, eligible);
    var mid := Next(l, s);
    assert id in l.rows;
    OnlyEditsChangeScores(l, s, id);
    RevisionStep(l, s, id);
    assert l.rows[id].revision == revision;
    StepKeepsInv(l, s);
    hide Next, Apply, Inv;
    RunKeepsInv(mid, steps);
    var m := Run(mid, steps).rows[id];
    assert Inv(m);
    SideRevisionIsCurrent(m, side);
    SameRevisionSameScores(mid, steps, id);
  }

  lemma SideRevisionIsCurrent(m: MatchRow, side: Side)
    requires Inv(m) && m.At(side).state != Pending
    ensures m.At(side).revision == Some(m.revision)
  {
  }
}
