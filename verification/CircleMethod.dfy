/**
 What the rotation schedule is for: for distinct, non-zero team IDs every pair meets exactly
 once, nobody plays twice in a week, and an odd league has exactly one idle team each week.
 */
module CircleMethod {
  import opened Prelude
  import opened Schedule
  import opened RoundRobin

  lemma SeatsAreDistinct(teamIDs: seq<int>)
    requires ValidIDs(teamIDs)
    ensures Distinct(Seats(teamIDs))
  {
    var t := Seats(teamIDs);
    forall i, j | 0 <= i < j < |t|
      ensures t[i] != t[j]
    {
      if j < |teamIDs| {
        assert teamIDs[i] != teamIDs[j];
      } else {
        assert t[i] in teamIDs;
      }
    }
  }

  // ---- Every pair meets exactly once -----------------------------------------------

  /** A team is at seat s exactly if it is the team that the rotation has brought to seat s. */
  lemma AtSeat(t: seq<int>, round: nat, s: nat, p: nat)
    requires Distinct(t) && round < |t| - 1 && s < |t| && p < |t|
    ensures t[Origin(|t|, round, s)] == t[p] <==> SeatOf(|t|, round, p) == s
  {
    SameTeam(t, Origin(|t|, round, s), p);
    SeatOfInvertsOrigin(|t|, round, s);
    SeatOfInvertsOrigin(|t|, round, p);
  }

  lemma PairingMeetings(t: seq<int>, round: nat, i: nat, a: int, b: int)
    requires round < |t| && i < |t|
    ensures var x, y := t[Origin(|t|, round, i)], t[Origin(|t|, round, |t| - 1 - i)];
            Meetings(Pairing(t, round, i), a, b) ==
            if x != BYE && y != BYE && ((x == a && y == b) || (x == b && y == a)) then 1 else 0
  {
    var x, y := t[Origin(|t|, round, i)], t[Origin(|t|, round, |t| - 1 - i)];
    hide Origin;
    CountSingle(ScheduleEntry(x, y, round + 1, None), MeetingOf(a, b));
  }

  lemma PairingPlays(t: seq<int>, round: nat, i: nat, team: int)
    requires round < |t| && i < |t|
    ensures var x, y := t[Origin(|t|, round, i)], t[Origin(|t|, round, |t| - 1 - i)];
            Plays(Pairing(t, round, i), round + 1, team) ==
            if x != BYE && y != BYE && (x == team || y == team) then 1 else 0
  {
    var x, y := t[Origin(|t|, round, i)], t[Origin(|t|, round, |t| - 1 - i)];
    hide Origin;
    CountSingle(ScheduleEntry(x, y, round + 1, None), PlayingIn(round + 1, team));
  }

  /** Teams p and q share table i of a round exactly when their seats face each other there. */
  lemma PairingMeets(t: seq<int>, round: nat, i: nat, p: nat, q: nat)
    requires Distinct(t) && |t| % 2 == 0 && round < |t| - 1 && i < |t| / 2
    requires p < |t| && q < |t| && p != q && t[p] != BYE && t[q] != BYE
    ensures Meetings(Pairing(t, round, i), t[p], t[q]) ==
            if SeatOf(|t|, round, p) + SeatOf(|t|, round, q) == |t| - 1
               && Min(SeatOf(|t|, round, p), SeatOf(|t|, round, q)) == i then 1 else 0
  {
    hide Origin, SeatOf, Distinct, Pairing, Meetings, Plays;
    var n := |t|;
    AtSeat(t, round, i, p);
    AtSeat(t, round, i, q);
    AtSeat(t, round, n - 1 - i, p);
    AtSeat(t, round, n - 1 - i, q);
    PairingMeetings(t, round, i, t[p], t[q]);
  }

  lemma SameTeam(t: seq<int>, x: nat, p: nat)
    requires Distinct(t) && x < |t| && p < |t|
    ensures t[x] == t[p] <==> x == p
  {
    if x < p {
      assert t[x] != t[p];
    } else if p < x {
      assert t[p] != t[x];
    }
  }

  lemma {:induction false} TablesMeet(t: seq<int>, round: nat, k: nat, p: nat, q: nat)
    requires Distinct(t) && |t| % 2 == 0 && round < |t| - 1 && k <= |t| / 2
    requires p < |t| && q < |t| && p != q && t[p] != BYE && t[q] != BYE
    ensures Meetings(Tables(t, round, k), t[p], t[q]) ==
            if SeatOf(|t|, round, p) + SeatOf(|t|, round, q) == |t| - 1
               && Min(SeatOf(|t|, round, p), SeatOf(|t|, round, q)) < k then 1 else 0
  {
    hide Origin, SeatOf, Pairing, MeetingOf;
    if k > 0 {
      TablesMeet(t, round, k - 1, p, q);
      PairingMeets(t, round, k - 1, p, q);
      CountConcat(Tables(t, round, k - 1), Pairing(t, round, k - 1), MeetingOf(t[p], t[q]));
    }
  }

  lemma {:induction false} CircleMeets(t: seq<int>, rounds: nat, p: nat, q: nat)
    requires Distinct(t) && |t| % 2 == 0 && rounds <= |t| - 1
    requires p < |t| && q < |t| && p != q && t[p] != BYE && t[q] != BYE
    ensures Meetings(Circle(t, rounds), t[p], t[q]) ==
            if MeetingRound(|t|, p, q) < rounds then 1 else 0
  {
    hide *;
    if rounds == 0 {
      NoRounds(t);
    } else {
      CircleMeets(t, rounds - 1, p, q);
      TablesMeet(t, rounds - 1, |t| / 2, p, q);
      MeetingRoundIsUnique(|t|, p, q, rounds - 1);
      MeetingsInRounds(t, rounds, t[p], t[q]);
      SeatsTakenEarly(|t|, rounds - 1, p, q);
    }
  }

  lemma NoRounds(t: seq<int>)
    ensures forall a, b :: Meetings(Circle(t, 0), a, b) == 0
    ensures forall week, team :: Plays(Circle(t, 0), week, team) == 0
  {
  }

  lemma MeetingsInRounds(t: seq<int>, rounds: nat, a: int, b: int)
    requires 0 < rounds <= |t|
    ensures Meetings(Circle(t, rounds), a, b) ==
            Meetings(Circle(t, rounds - 1), a, b) + Meetings(Tables(t, rounds - 1, |t| / 2), a, b)
  {
    CountConcat(Circle(t, rounds - 1), Tables(t, rounds - 1, |t| / 2), MeetingOf(a, b));
  }

  lemma PlaysInRounds(t: seq<int>, rounds: nat, week: int, team: int)
    requires 0 < rounds <= |t|
    ensures Plays(Circle(t, rounds), week, team) ==
            Plays(Circle(t, rounds - 1), week, team) + Plays(Tables(t, rounds - 1, |t| / 2), week, team)
  {
    CountConcat(Circle(t, rounds - 1), Tables(t, rounds - 1, |t| / 2), PlayingIn(week, team));
  }

  /** One of two facing seats is in the first half. */
  lemma SeatsTakenEarly(n: nat, round: nat, p: nat, q: nat)
    requires n % 2 == 0 && round < n && p < n && q < n
    ensures SeatOf(n, round, p) + SeatOf(n, round, q) == n - 1 ==>
              Min(SeatOf(n, round, p), SeatOf(n, round, q)) < n / 2
    ensures Min(SeatOf(n, round, p), n - 1 - SeatOf(n, round, p)) < n / 2
  {
  }

  /** Main result: any two different teams meet in exactly one match of the pass. */
  lemma EveryPairMeetsOnce(teamIDs: seq<int>, a: int, b: int)
    requires ValidIDs(teamIDs) && a in teamIDs && b in teamIDs && a != b
    ensures Meetings(Rotation(teamIDs), a, b) == 1
  {
    var t := Seats(teamIDs);
    hide Circle;
    SeatsAreDistinct(teamIDs);
    var p :| 0 <= p < |teamIDs| && teamIDs[p] == a;
    var q :| 0 <= q < |teamIDs| && teamIDs[q] == b;
    CircleMeets(t, |t| - 1, p, q);
  }

  // ---- Who stands in the schedule, and how many matches there are ---------------------

  /** The shape of every entry: two different teams of the league, in week 1 to n-1. */
  ghost predicate WellFormedEntry(t: seq<int>, e: ScheduleEntry) {
    && e.home in t && e.away in t && e.home != e.away
    && e.home != BYE && e.away != BYE
    && 1 <= e.week <= |t| - 1
    && e.date == None
  }

  ghost predicate AllWellFormed(t: seq<int>, es: seq<ScheduleEntry>) {
    forall e :: e in es ==> WellFormedEntry(t, e)
  }

  lemma AllWellFormedConcat(t: seq<int>, xs: seq<ScheduleEntry>, ys: seq<ScheduleEntry>)
    requires AllWellFormed(t, xs) && AllWellFormed(t, ys)
    ensures AllWellFormed(t, xs + ys)
  {
  }

  lemma PairingWellFormed(t: seq<int>, round: nat, i: nat)
    requires Distinct(t) && |t| % 2 == 0 && round < |t| - 1 && i < |t| / 2
    ensures AllWellFormed(t, Pairing(t, round, i))
  {
    var n := |t|;
    SeatOfInvertsOrigin(n, round, i);
    SeatOfInvertsOrigin(n, round, n - 1 - i);
    SameTeam(t, Origin(n, round, i), Origin(n, round, n - 1 - i));
  }

  lemma {:induction false} TablesWellFormed(t: seq<int>, round: nat, k: nat)
    requires Distinct(t) && |t| % 2 == 0 && round < |t| - 1 && k <= |t| / 2
    ensures AllWellFormed(t, Tables(t, round, k))
  {
    if k > 0 {
      hide Distinct, Pairing, AllWellFormed;
      TablesWellFormed(t, round, k - 1);
      PairingWellFormed(t, round, k - 1);
      AllWellFormedConcat(t, Tables(t, round, k - 1), Pairing(t, round, k - 1));
    }
  }

  lemma {:induction false} CircleWellFormed(t: seq<int>, rounds: nat)
    requires Distinct(t) && |t| % 2 == 0 && rounds <= |t| - 1
    ensures AllWellFormed(t, Circle(t, rounds))
  {
    hide *;
    if rounds == 0 {
      NoRoundsWellFormed(t);
    } else {
      CircleWellFormed(t, rounds - 1);
      TablesWellFormed(t, rounds - 1, |t| / 2);
      AllWellFormedConcat(t, Circle(t, rounds - 1), Tables(t, rounds - 1, |t| / 2));
      CircleStep(t, rounds - 1);
    }
  }

  lemma NoRoundsWellFormed(t: seq<int>)
    ensures AllWellFormed(t, Circle(t, 0))
  {
  }

  lemma RotationWellFormed(teamIDs: seq<int>)
    requires ValidIDs(teamIDs) && |teamIDs| >= 2
    ensures forall e :: e in Rotation(teamIDs) ==>
              && e.home in teamIDs && e.away in teamIDs && e.home != e.away
              && 1 <= e.week <= |Seats(teamIDs)| - 1 && e.date == None
    ensures WeeksAscend(Rotation(teamIDs))
  {
    hide Circle;
    SeatsAreDistinct(teamIDs);
    CircleInOrder(Seats(teamIDs), |Seats(teamIDs)| - 1);
    CircleWellFormed(Seats(teamIDs), |Seats(teamIDs)| - 1);
  }

  // ---- Weekly matchings and byes -----------------------------------------------------

  /** Whether team p has an opponent, and not the bye, in a round. */
  ghost predicate HasOpponent(t: seq<int>, round: nat, p: nat)
    requires round < |t| - 1 && p < |t|
  {
    t[Origin(|t|, round, |t| - 1 - SeatOf(|t|, round, p))] != BYE
  }

  lemma PairingSeats(t: seq<int>, round: nat, i: nat, p: nat)
    requires Distinct(t) && |t| % 2 == 0 && round < |t| - 1 && i < |t| / 2
    requires p < |t| && t[p] != BYE
    ensures var s := SeatOf(|t|, round, p);
            Plays(Pairing(t, round, i), round + 1, t[p]) ==
            if HasOpponent(t, round, p) && Min(s, |t| - 1 - s) == i then 1 else 0
  {
    hide Origin, SeatOf, Distinct, Pairing, Meetings, Plays;
    var n := |t|;
    AtSeat(t, round, i, p);
    AtSeat(t, round, n - 1 - i, p);
    PairingPlays(t, round, i, t[p]);
    Opposite(t, round, p);
  }

  /** A seated team's opponent is the one across the table. */
  lemma Opposite(t: seq<int>, round: nat, p: nat)
    requires round < |t| - 1 && p < |t|
    ensures HasOpponent(t, round, p) <==> t[Origin(|t|, round, |t| - 1 - SeatOf(|t|, round, p))] != BYE
  {
  }

  lemma {:induction false} TablesSeat(t: seq<int>, round: nat, k: nat, p: nat)
    requires Distinct(t) && |t| % 2 == 0 && round < |t| - 1 && k <= |t| / 2
    requires p < |t| && t[p] != BYE
    ensures var s := SeatOf(|t|, round, p);
            Plays(Tables(t, round, k), round + 1, t[p]) ==
            if HasOpponent(t, round, p) && Min(s, |t| - 1 - s) < k then 1 else 0
  {
    hide Origin, SeatOf, Pairing, PlayingIn, HasOpponent;
    if k > 0 {
      TablesSeat(t, round, k - 1, p);
      PairingSeats(t, round, k - 1, p);
      CountConcat(Tables(t, round, k - 1), Pairing(t, round, k - 1), PlayingIn(round + 1, t[p]));
    }
  }

  lemma {:induction false} CircleSeats(t: seq<int>, rounds: nat, round: nat, p: nat)
    requires Distinct(t) && |t| % 2 == 0 && rounds <= |t| - 1 && round < |t| - 1
    requires p < |t| && t[p] != BYE
    ensures Plays(Circle(t, rounds), round + 1, t[p]) ==
            if round < rounds && HasOpponent(t, round, p) then 1 else 0
  {
    hide *;
    if rounds == 0 {
      NoRounds(t);
    } else {
      CircleSeats(t, rounds - 1, round, p);
      PlaysInRounds(t, rounds, round + 1, t[p]);
      if round == rounds - 1 {
        TablesSeat(t, round, |t| / 2, p);
        SeatsTakenEarly(|t|, round, p, p);
      } else {
        OtherRound(t, rounds - 1, round, p);
      }
    }
  }

  lemma OtherRound(t: seq<int>, round: nat, other: nat, p: nat)
    requires round < |t| && other != round && p < |t|
    ensures Plays(Tables(t, round, |t| / 2), other + 1, t[p]) == 0
  {
    TablesInWeek(t, round, |t| / 2);
    CountZero(Tables(t, round, |t| / 2), PlayingIn(other + 1, t[p]));
  }

  /** The week in which a team of an odd league sits out: the round it draws the bye seat. */
  ghost function IdleWeek(teamIDs: seq<int>, p: nat): (week: int)
    requires |teamIDs| % 2 != 0 && p < |teamIDs|
    ensures 1 <= week <= |teamIDs|
  {
    MeetingRound(|teamIDs| + 1, p, |teamIDs|) + 1
  }

  /** The one team that draws the bye seat in a week. */
  ghost function IdleTeam(teamIDs: seq<int>, week: int): (p: nat)
    requires |teamIDs| % 2 != 0 && 1 <= week <= |teamIDs|
    ensures p < |teamIDs|
  {
    var n := |teamIDs| + 1;
    SeatOfInvertsOrigin(n, week - 1, n - 1);
    SeatOfInvertsOrigin(n, week - 1, n - 1 - SeatOf(n, week - 1, n - 1));
    Origin(n, week - 1, n - 1 - SeatOf(n, week - 1, n - 1))
  }

  /** Idle week and idle team are inverse: a bijection between the teams and the weeks. */
  lemma IdleWeeksAndTeamsMatch(teamIDs: seq<int>, p: nat, week: int)
    requires |teamIDs| % 2 != 0 && p < |teamIDs| && 1 <= week <= |teamIDs|
    ensures IdleWeek(teamIDs, p) == week <==> IdleTeam(teamIDs, week) == p
  {
    hide SeatOf, Origin, MeetingRound;
    var n, round := |teamIDs| + 1, week - 1;
    var opposite := n - 1 - SeatOf(n, round, n - 1);
    MeetingRoundIsUnique(n, p, n - 1, round);
    SeatOfInvertsOrigin(n, round, p);
    SeatOfInvertsOrigin(n, round, opposite);
    assert IdleWeek(teamIDs, p) == week <==> SeatOf(n, round, p) == opposite;
    assert IdleTeam(teamIDs, week) == Origin(n, round, opposite);
  }

  /** Main result: in every week a team plays once, except the one idle team of an odd league. */
  lemma WeeklyMatching(teamIDs: seq<int>, week: int, p: nat)
    requires ValidIDs(teamIDs) && |teamIDs| >= 2 && p < |teamIDs|
    requires 1 <= week <= |Seats(teamIDs)| - 1
    ensures |teamIDs| % 2 == 0 ==> Plays(Rotation(teamIDs), week, teamIDs[p]) == 1
    ensures |teamIDs| % 2 != 0 ==>
              Plays(Rotation(teamIDs), week, teamIDs[p]) == if IdleWeek(teamIDs, p) == week then 0 else 1
  {
    hide Circle, Origin, MeetingRound;
    var t := Seats(teamIDs);
    var n, round := |t|, week - 1;
    SeatsAreDistinct(teamIDs);
    CircleSeats(t, n - 1, round, p);
    SeatOfInvertsOrigin(n, round, n - 1 - SeatOf(n, round, p));
    if |teamIDs| % 2 == 0 {
      assert t[Origin(n, round, n - 1 - SeatOf(n, round, p))] in teamIDs;
    } else {
      var opponent := Origin(n, round, n - 1 - SeatOf(n, round, p));
      assert t[n - 1] == BYE;
      SameTeam(t, opponent, n - 1);
      SeatOfInvertsOrigin(n, round, n - 1);
      MeetingRoundIsUnique(n, p, n - 1, round);
    }
  }

  /** Exactly one team of an odd league is idle in a week, and each team in exactly one week. */
  lemma OneByePerWeekAndTeam(teamIDs: seq<int>)
    requires ValidIDs(teamIDs) && |teamIDs| >= 2 && |teamIDs| % 2 != 0
    ensures forall p, week {:trigger Plays(Rotation(teamIDs), week, teamIDs[p])} ::
              0 <= p < |teamIDs| && 1 <= week <= |teamIDs| ==>
              && (Plays(Rotation(teamIDs), week, teamIDs[p]) == 0 <==> p == IdleTeam(teamIDs, week))
              && (Plays(Rotation(teamIDs), week, teamIDs[p]) == 0 <==> week == IdleWeek(teamIDs, p))
  {
    hide Rotation, Plays, IdleTeam, IdleWeek;
    forall p, week | 0 <= p < |teamIDs| && 1 <= week <= |teamIDs|
      ensures Plays(Rotation(teamIDs), week, teamIDs[p]) == 0 <==> p == IdleTeam(teamIDs, week)
      ensures Plays(Rotation(teamIDs), week, teamIDs[p]) == 0 <==> week == IdleWeek(teamIDs, p)
    {
      WeeklyMatching(teamIDs, week, p);
      IdleWeeksAndTeamsMatch(teamIDs, p, week);
    }
  }

  /** Nobody plays twice in a week, whatever team and whatever week. */
  lemma RotationIsWeeklyMatching(teamIDs: seq<int>)
    requires ValidIDs(teamIDs) && |teamIDs| >= 2
    ensures IsWeeklyMatching(Rotation(teamIDs))
  {
    var es := Rotation(teamIDs);
    forall week, team | team != BYE
      ensures Plays(es, week, team) <= 1
    {
      RotationWellFormed(teamIDs);
      if team in teamIDs && 1 <= week <= |Seats(teamIDs)| - 1 {
        var p :| 0 <= p < |teamIDs| && teamIDs[p] == team;
        WeeklyMatching(teamIDs, week, p);
      } else {
        CountZero(es, PlayingIn(week, team));
      }
    }
  }

  // ---- The number of matches -----------------------------------------------------------

  /** Only the table with the bye seat is skipped. */
  lemma PairingLength(t: seq<int>, round: nat, i: nat)
    requires Distinct(t) && |t| % 2 == 0 && round < |t| - 1 && i < |t| / 2
    ensures BYE !in t ==> |Pairing(t, round, i)| == 1
    ensures t[|t| - 1] == BYE ==>
              var s := SeatOf(|t|, round, |t| - 1);
              |Pairing(t, round, i)| == if Min(s, |t| - 1 - s) == i then 0 else 1
  {
    var n := |t|;
    var x, y := Origin(n, round, i), Origin(n, round, n - 1 - i);
    SeatOfInvertsOrigin(n, round, i);
    SeatOfInvertsOrigin(n, round, n - 1 - i);
    SeatOfInvertsOrigin(n, round, n - 1);
    assert t[x] in t && t[y] in t;
    SameTeam(t, x, n - 1);
    SameTeam(t, y, n - 1);
    var s := SeatOf(n, round, n - 1);
    assert (x == n - 1 <==> s == i) && (y == n - 1 <==> s == n - 1 - i);
  }

  lemma {:induction false} TablesLength(t: seq<int>, round: nat, k: nat)
    requires Distinct(t) && |t| % 2 == 0 && round < |t| - 1 && k <= |t| / 2
    ensures BYE !in t ==> |Tables(t, round, k)| == k
    ensures t[|t| - 1] == BYE ==>
              var s := SeatOf(|t|, round, |t| - 1);
              |Tables(t, round, k)| == if Min(s, |t| - 1 - s) < k then k - 1 else k
  {
    hide Origin, SeatOf, Pairing;
    if k > 0 {
      TablesLength(t, round, k - 1);
      PairingLength(t, round, k - 1);
    }
  }

  lemma {:induction false} CircleLength(t: seq<int>, rounds: nat, perRound: nat)
    requires Distinct(t) && |t| % 2 == 0 && |t| >= 2 && rounds <= |t| - 1
    requires if t[|t| - 1] == BYE then perRound == |t| / 2 - 1 else BYE !in t && perRound == |t| / 2
    ensures |Circle(t, rounds)| == rounds * perRound
  {
    hide SeatOf, Tables;
    if rounds > 0 {
      CircleLength(t, rounds - 1, perRound);
      TablesLength(t, rounds - 1, |t| / 2);
      assert rounds * perRound == (rounds - 1) * perRound + perRound;
    }
  }

  /** A pass of k teams has k(k-1)/2 matches. */
  lemma RotationLength(teamIDs: seq<int>)
    requires ValidIDs(teamIDs) && |teamIDs| >= 2
    ensures |Rotation(teamIDs)| * 2 == |teamIDs| * (|teamIDs| - 1)
  {
    hide Circle;
    var t, k := Seats(teamIDs), |teamIDs|;
    SeatsAreDistinct(teamIDs);
    var perRound := k / 2;
    CircleLength(t, |t| - 1, perRound);
    if k % 2 == 0 {
      assert (k - 1) * perRound * 2 == (k - 1) * k by { assert perRound * 2 == k; }
    } else {
      assert k * perRound * 2 == k * (k - 1) by { assert perRound * 2 == k - 1; }
    }
  }

  // ---- Small leagues, written out --------------------------------------------------------

  lemma RoundOfFour(t: seq<int>, round: nat)
    requires |t| == 4 && round < 3
    ensures Circle(t, round + 1) == Circle(t, round) + (Pairing(t, round, 0) + Pairing(t, round, 1))
  {
    assert Tables(t, round, 0) == [];
    assert Tables(t, round, 1) == Pairing(t, round, 0);
    assert Tables(t, round, 2) == Pairing(t, round, 0) + Pairing(t, round, 1);
    hide Pairing;
  }

  lemma CircleOfFour(t: seq<int>)
    requires |t| == 4
    ensures Circle(t, 3) ==
            Pairing(t, 0, 0) + Pairing(t, 0, 1) + (Pairing(t, 1, 0) + Pairing(t, 1, 1)) + (Pairing(t, 2, 0) + Pairing(t, 2, 1))
  {
    hide *;
    RoundOfFour(t, 0);
    RoundOfFour(t, 1);
    RoundOfFour(t, 2);
    EmptyCircle(t);
    var first := Pairing(t, 0, 0) + Pairing(t, 0, 1);
    assert [] + first == first;
  }

  lemma EmptyCircle(t: seq<int>)
    ensures Circle(t, 0) == []
  {
  }

  /** The schedule of four teams: who meets whom, where and when. */
  lemma LeagueOfFour(a: int, b: int, c: int, d: int)
    requires BYE !in {a, b, c, d}
    ensures Rotation([a, b, c, d]) ==
            [ScheduleEntry(a, d, 1, None), ScheduleEntry(b, c, 1, None),
             ScheduleEntry(a, c, 2, None), ScheduleEntry(d, b, 2, None),
             ScheduleEntry(a, b, 3, None), ScheduleEntry(c, d, 3, None)]
  {
    CircleOfFour([a, b, c, d]);
    hide Circle;
  }

  /** The schedule of three teams, of which one has a bye each week. */
  lemma LeagueOfThree(a: int, b: int, c: int)
    requires BYE !in {a, b, c}
    ensures Rotation([a, b, c]) == [ScheduleEntry(b, c, 1, None), ScheduleEntry(a, c, 2, None), ScheduleEntry(a, b, 3, None)]
  {
    assert Seats([a, b, c]) == [a, b, c, BYE];
    CircleOfFour([a, b, c, BYE]);
    hide Circle;
  }
}
