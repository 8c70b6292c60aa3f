/**
 The circle method: one pass in which every team meets every other.

 The program keeps team 0 in its seat and rotates the rest of the array one place after
 each round. `Origin` is the closed form of that rotation; everything is proved about the
 closed form, and `RoundRobinBase` is proved to compute it in place.
 */
module RoundRobin {
  import opened Prelude
  import opened Schedule

  /** Panicked: the bye pairing indexed past the end of its source weeks. */
  datatype ScheduleError = TooFewTeams | BadNumWeeks | Panicked

  /** The teams around the table; an odd league gets a bye seat at the end. */
  function Seats(teamIDs: seq<int>): (t: seq<int>)
    ensures |t| % 2 == 0
  {
    if |teamIDs| % 2 != 0 then teamIDs + [BYE] else teamIDs
  }

  /** Which team (by position in `Seats`) sits at `seat` after `round` rotations. */
  function Origin(n: nat, round: nat, seat: nat): (team: nat)
    requires round < n && seat < n
    ensures team < n
  {
    if seat == 0 then 0 else if seat > round then seat - round else seat - round + n - 1
  }

  /** Where a team sits after `round` rotations. */
  function SeatOf(n: nat, round: nat, team: nat): (seat: nat)
    requires round < n && team < n
    ensures seat < n
  {
    if team == 0 then 0 else if team + round < n then team + round else team + round - (n - 1)
  }

  lemma SeatOfInvertsOrigin(n: nat, round: nat, x: nat)
    requires round < n - 1 && x < n
    ensures SeatOf(n, round, Origin(n, round, x)) == x
    ensures Origin(n, round, SeatOf(n, round, x)) == x
  {
  }

  /** The round in which teams p and q face each other. */
  function MeetingRound(n: nat, p: nat, q: nat): (round: int)
    requires n % 2 == 0 && p < n && q < n && p != q
    ensures 0 <= round < n - 1
  {
    var m := n - 1;
    if p == 0 then m - q
    else if q == 0 then m - p
    else
      var t := p + q - 2;
      if t % 2 == 0 then m - t / 2 - 1
      else if t < m then (m - t) / 2 - 1
      else (3 * m - t) / 2 - 1
  }

  predicate FaceEachOther(n: nat, p: nat, q: nat, round: nat)
    requires p < n && q < n && round < n
  {
    SeatOf(n, round, p) + SeatOf(n, round, q) == n - 1
  }

  lemma FacesTheFirst(n: nat, p: nat, q: nat, round: nat)
    requires n % 2 == 0 && p < n && q < n && p != q && round < n - 1 && (p == 0 || q == 0)
    ensures FaceEachOther(n, p, q, round) <==> round == MeetingRound(n, p, q)
  {
  }

  lemma FacesAtEvenDistance(n: nat, p: nat, q: nat, round: nat)
    requires n % 2 == 0 && 0 < p < n && 0 < q < n && p != q && round < n - 1 && (p + q) % 2 == 0
    ensures FaceEachOther(n, p, q, round) <==> round == MeetingRound(n, p, q)
  {
  }

  lemma FacesAtOddDistance(n: nat, p: nat, q: nat, round: nat)
    requires n % 2 == 0 && 0 < p < n && 0 < q < n && p != q && round < n - 1 && (p + q) % 2 != 0
    ensures FaceEachOther(n, p, q, round) <==> round == MeetingRound(n, p, q)
  {
  }

  /** Two teams face each other in exactly one round. The count of seats is even, so the
      rotation has odd order and 2 is invertible modulo it: that is the whole argument. */
  lemma MeetingRoundIsUnique(n: nat, p: nat, q: nat, round: nat)
    requires n % 2 == 0 && p < n && q < n && p != q && round < n - 1
    ensures SeatOf(n, round, p) + SeatOf(n, round, q) == n - 1 <==> round == MeetingRound(n, p, q)
  {
    hide SeatOf, MeetingRound;
    if p == 0 || q == 0 {
      FacesTheFirst(n, p, q, round);
    } else if (p + q) % 2 == 0 {
      FacesAtEvenDistance(n, p, q, round);
    } else {
      FacesAtOddDistance(n, p, q, round);
    }
  }

  // ---- The schedule in closed form -------------------------------------------------

  /** The i-th table of a round: nothing when one of the two seats is the bye. */
  function Pairing(t: seq<int>, round: nat, i: nat): seq<ScheduleEntry>
    requires round < |t| && i < |t|
  {
    var home := t[Origin(|t|, round, i)];
    var away := t[Origin(|t|, round, |t| - 1 - i)];
    if home == BYE || away == BYE then [] else [ScheduleEntry(home, away, round + 1, None)]
  }

  /** The first k tables of a round. */
  function Tables(t: seq<int>, round: nat, k: nat): seq<ScheduleEntry>
    requires round < |t| && k <= |t|
  {
    if k == 0 then [] else Tables(t, round, k - 1) + Pairing(t, round, k - 1)
  }

  /** The first `rounds` rounds. */
  function Circle(t: seq<int>, rounds: nat): seq<ScheduleEntry>
    requires rounds <= |t|
  {
    if rounds == 0 then [] else Circle(t, rounds - 1) + Tables(t, rounds - 1, |t| / 2)
  }

  /** One complete pass. */
  function Rotation(teamIDs: seq<int>): seq<ScheduleEntry>
    requires |teamIDs| >= 2
  {
    var t := Seats(teamIDs);
    Circle(t, |t| - 1)
  }

  // ---- roundRobinBase --------------------------------------------------------------

  /** The array contents after `round` rotations. */
  function Seating(t: seq<int>, round: nat): (s: seq<int>)
    requires round < |t|
    ensures |s| == |t|
  {
    seq(|t|, i requires 0 <= i < |t| => t[Origin(|t|, round, i)])
  }

  /** Everyone but the first moves one place on, the last one to the second place. */
  function Rotated(s: seq<int>): (r: seq<int>)
    requires |s| >= 2
    ensures |r| == |s|
  {
    [s[0], s[|s| - 1]] + s[1..|s| - 1]
  }

  lemma RotatedSeating(t: seq<int>, round: nat)
    requires round + 1 < |t|
    ensures Rotated(Seating(t, round)) == Seating(t, round + 1)
  {
    var s, n := Seating(t, round), |t|;
    forall i | 0 <= i < n
      ensures Rotated(s)[i] == t[Origin(n, round + 1, i)]
    {
      assert i >= 2 ==> Rotated(s)[i] == s[i - 1];
    }
  }

  /** Keep teams[0] fixed, rotate the rest. */
  method Rotate(teams: array<int>)
    requires teams.Length >= 2
    modifies teams
    ensures teams[..] == Rotated(old(teams[..]))
  {
    var n := teams.Length;
    var last := teams[n - 1];
    forall j | 2 <= j < n {
      teams[j] := teams[j - 1];
    }
    teams[1] := last;
  }

  lemma SeatingAt(teams: seq<int>, t: seq<int>, round: nat, i: nat)
    requires round < |t| && i < |t| && teams == Seating(t, round)
    ensures Pairing(t, round, i) ==
            if teams[i] == BYE || teams[|t| - 1 - i] == BYE then []
            else [ScheduleEntry(teams[i], teams[|t| - 1 - i], round + 1, None)]
  {
  }

  /** One round's tables, read off the array; a table with the bye is skipped. */
  method PlayRound(teams: array<int>, round: nat, ghost t: seq<int>) returns (entries: seq<ScheduleEntry>)
    requires round < |t| && teams[..] == Seating(t, round)
    ensures entries == Tables(t, round, |t| / 2)
  {
    var n := teams.Length;
    var week := round + 1;
    entries := [];
    for i := 0 to n / 2
      invariant entries == Tables(t, round, i)
    {
      var home := teams[i];
      var away := teams[n - 1 - i];
      SeatingAt(teams[..], t, round, i);
      if home == BYE || away == BYE {
        continue;
      }
      entries := entries + [ScheduleEntry(home, away, week, None)];
    }
  }

  lemma CircleStep(t: seq<int>, round: nat)
    requires round < |t|
    ensures Circle(t, round + 1) == Circle(t, round) + Tables(t, round, |t| / 2)
  {
  }

  method SeatTeams(t: seq<int>) returns (teams: array<int>)
    ensures fresh(teams) && teams[..] == t
  {
    teams := new int[|t|](i requires 0 <= i < |t| => t[i]);
  }

  lemma StartOfRotation(t: seq<int>)
    requires |t| > 0
    ensures t == Seating(t, 0) && Circle(t, 0) == []
  {
  }

  lemma RotationIs(teamIDs: seq<int>)
    requires |teamIDs| >= 2
    ensures |Seats(teamIDs)| >= 2 && |Seats(teamIDs)| % 2 == 0
    ensures Rotation(teamIDs) == Circle(Seats(teamIDs), |Seats(teamIDs)| - 1)
  {
    hide Circle;
  }

  /** Play every round, rotating the array in between. */
  method PlayRounds(teams: array<int>, ghost t: seq<int>) returns (entries: seq<ScheduleEntry>)
    requires teams[..] == t && |t| >= 2
    modifies teams
    ensures entries == Circle(t, |t| - 1)
  {
    hide *;
    var n := teams.Length;
    entries := [];
    StartOfRotation(t);
    for round := 0 to n - 1
      invariant teams[..] == Seating(t, round)
      invariant entries == Circle(t, round)
    {
      var fixtures := PlayRound(teams, round, t);
      entries := entries + fixtures;
      CircleStep(t, round);
      Rotate(teams);
      RotatedSeating(t, round);
    }
  }

  method RoundRobinBase(teamIDs: seq<int>) returns (r: Result<seq<ScheduleEntry>, ScheduleError>)
    ensures r == if |teamIDs| < 2 then Err(TooFewTeams) else Ok(Rotation(teamIDs))
  {
    if |teamIDs| < 2 {
      return Err(TooFewTeams);
    }
    RotationIs(teamIDs);
    hide *;
    var t := Seats(teamIDs);
    var teams := SeatTeams(t);
    var entries := PlayRounds(teams, t);
    return Ok(entries);
  }

  // ---- The schedule is in week order -----------------------------------------------

  lemma {:induction false} TablesInWeek(t: seq<int>, round: nat, k: nat)
    requires round < |t| && k <= |t|
    ensures forall i :: 0 <= i < |Tables(t, round, k)| ==> Tables(t, round, k)[i].week == round + 1
  {
    if k > 0 {
      TablesInWeek(t, round, k - 1);
    }
  }

  lemma WeeksAscendConcat(xs: seq<ScheduleEntry>, ys: seq<ScheduleEntry>, week: int)
    requires WeeksAscend(xs) && WeeksAscend(ys)
    requires forall i :: 0 <= i < |xs| ==> xs[i].week <= week
    requires forall i :: 0 <= i < |ys| ==> week <= ys[i].week
    ensures WeeksAscend(xs + ys)
  {
  }

  /** All weeks lie between the two given ones, in order. */
  ghost predicate InOrderWithin(es: seq<ScheduleEntry>, first: int, last: int) {
    WeeksAscend(es) && forall i :: 0 <= i < |es| ==> first <= es[i].week <= last
  }

  lemma RoundInOrder(t: seq<int>, round: nat)
    requires round < |t|
    ensures InOrderWithin(Tables(t, round, |t| / 2), round + 1, round + 1)
  {
    TablesInWeek(t, round, |t| / 2);
    hide Tables;
  }

  lemma InOrderConcat(xs: seq<ScheduleEntry>, ys: seq<ScheduleEntry>, rounds: nat)
    requires InOrderWithin(xs, 1, rounds) && InOrderWithin(ys, rounds + 1, rounds + 1)
    ensures InOrderWithin(xs + ys, 1, rounds + 1)
  {
    WeeksAscendConcat(xs, ys, rounds);
    hide WeeksAscend;
  }

  lemma NothingInOrder(t: seq<int>)
    ensures InOrderWithin(Circle(t, 0), 1, 0)
  {
  }

  lemma {:induction false} CircleInOrder(t: seq<int>, rounds: nat)
    requires rounds <= |t|
    ensures InOrderWithin(Circle(t, rounds), 1, rounds)
  {
    hide *;
    if rounds == 0 {
      NothingInOrder(t);
    } else {
      CircleInOrder(t, rounds - 1);
      RoundInOrder(t, rounds - 1);
      CircleStep(t, rounds - 1);
      InOrderConcat(Circle(t, rounds - 1), Tables(t, rounds - 1, |t| / 2), rounds - 1);
    }
  }
}
