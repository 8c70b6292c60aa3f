/**
 Handicap snapshots. Every stored pairing carries the handicaps it was played under; saving the
 sheet again keeps them, slot by slot, wherever the earlier sheet tells which ones they were.
 */
module Snapshots {
  import opened Prelude
  import opened MatchRecords
  import opened Scoresheet

  /** A map lookup in the program's sense: zero for a missing key. */
  function Current(handicaps: map<int, real>, player: int): real {
    if player in handicaps then handicaps[player] else 0.0
  }

  function OrElse(snapshot: Option<real>, current: real): real {
    if snapshot.Some? then snapshot.value else current
  }

  /** The earlier rows of one round, in order. */
  function RowsIn(rows: seq<RoundRow>, round: int): (found: seq<RoundRow>)
    ensures forall r :: r in found <==> r in rows && r.pairing.round == round
  {
    if rows == [] then []
    else
      var last := rows[|rows| - 1];
      assert rows == rows[..|rows| - 1] + [last];
      RowsIn(rows[..|rows| - 1], round) + if last.pairing.round == round then [last] else []
  }

  function FirstWithHome(rows: seq<RoundRow>, home: int): (found: Option<RoundRow>)
    ensures found.Some? ==> found.value in rows && found.value.pairing.homePlayer == home
    ensures found.None? ==> forall r :: r in rows ==> r.pairing.homePlayer != home
  {
    if rows == [] then None
    else if rows[0].pairing.homePlayer == home then Some(rows[0])
    else
      assert rows == [rows[0]] + rows[1..];
      FirstWithHome(rows[1..], home)
  }

  function WithAway(rows: seq<RoundRow>, away: int): (found: seq<RoundRow>)
    ensures forall r :: r in found <==> r in rows && r.pairing.awayPlayer == away
  {
    if rows == [] then []
    else
      var last := rows[|rows| - 1];
      assert rows == rows[..|rows| - 1] + [last];
      WithAway(rows[..|rows| - 1], away) + if last.pairing.awayPlayer == away then [last] else []
  }

  /** A new home player against an away player whom several earlier rows of the round name. */
  predicate Ambiguous(earlier: seq<RoundRow>, p: Pairing) {
    FirstWithHome(earlier, p.homePlayer).None? && |WithAway(earlier, p.awayPlayer)| > 1
  }

  /** The handicaps a slot is saved with; earlier holds the stored rows of its round. */
  function Effective(earlier: seq<RoundRow>, p: Pairing, handicaps: map<int, real>): PairingHC {
    var homeHC, awayHC := Current(handicaps, p.homePlayer), Current(handicaps, p.awayPlayer);
    match FirstWithHome(earlier, p.homePlayer)
    case Some(row) =>
      PairingHC(OrElse(row.homeHC, homeHC), if row.pairing.awayPlayer == p.awayPlayer then OrElse(row.awayHC, awayHC) else awayHC)
    case None =>
      var found := WithAway(earlier, p.awayPlayer);
      PairingHC(homeHC, if |found| == 1 then OrElse(found[0].awayHC, awayHC) else awayHC)
  }

  function RowFor(p: Pairing, hc: PairingHC, cfg: RoundConfig): RoundRow {
    RoundRow(p, Some(hc.home), Some(hc.away), CalcSpotM(hc.home, hc.away, cfg.multiplier))
  }

  function HandicapsFor(stored: seq<RoundRow>, ps: seq<Pairing>, handicaps: map<int, real>): (hcs: seq<PairingHC>)
    ensures |hcs| == |ps|
  {
    seq(|ps|, i requires 0 <= i < |ps| => Effective(RowsIn(stored, ps[i].round), ps[i], handicaps))
  }

  function RowsFor(ps: seq<Pairing>, hcs: seq<PairingHC>, cfg: RoundConfig): (rows: seq<RoundRow>)
    requires |hcs| == |ps|
    ensures |rows| == |ps|
  {
    seq(|ps|, i requires 0 <= i < |ps| => RowFor(ps[i], hcs[i], cfg))
  }

  // ---- The loops --------------------------------------------------------------------------

  /** The rows kept for a round; none when it is absent. */
  function Group(byRound: map<int, seq<RoundRow>>, round: int): seq<RoundRow> {
    if round in byRound then byRound[round] else []
  }

  method GroupByRound(rows: seq<RoundRow>) returns (byRound: map<int, seq<RoundRow>>)
    ensures forall round :: Group(byRound, round) == RowsIn(rows, round)
  {
    byRound := map[];
    for i := 0 to |rows|
      invariant forall round :: Group(byRound, round) == RowsIn(rows[..i], round)
    {
      hide RowsIn;
      ghost var was := byRound;
      var round := rows[i].pairing.round;
      byRound := byRound[round := Group(byRound, round) + [rows[i]]];
      forall r
        ensures Group(byRound, r) == RowsIn(rows[..i + 1], r)
      {
        RowsInStep(rows, i, r);
        assert Group(was, r) == RowsIn(rows[..i], r);
      }
    }
    assert rows[..|rows|] == rows;
  }

  lemma RowsInStep(rows: seq<RoundRow>, i: nat, round: int)
    requires i < |rows|
    ensures RowsIn(rows[..i + 1], round) ==
            if rows[i].pairing.round == round then RowsIn(rows[..i], round) + [rows[i]] else RowsIn(rows[..i], round)
  {
    assert rows[..i + 1][..i] == rows[..i];
  }

  method FindByHome(rows: seq<RoundRow>, home: int) returns (found: Option<RoundRow>)
    ensures found == FirstWithHome(rows, home)
  {
    for j := 0 to |rows|
      invariant FirstWithHome(rows, home) == FirstWithHome(rows[j..], home)
    {
      if rows[j].pairing.homePlayer == home {
        return Some(rows[j]);
      }
      assert rows[j..][1..] == rows[j + 1..];
    }
    return None;
  }

  /** Every row is looked at: the last match and how many there are. */
  method FindByAway(rows: seq<RoundRow>, away: int) returns (found: Option<RoundRow>, count: nat)
    ensures count == |WithAway(rows, away)| && (found.Some? <==> count > 0)
    ensures found.Some? ==> found.value == WithAway(rows, away)[count - 1]
  {
    found, count := None, 0;
    for j := 0 to |rows|
      invariant count == |WithAway(rows[..j], away)| && (found.Some? <==> count > 0)
      invariant found.Some? ==> found.value == WithAway(rows[..j], away)[count - 1]
    {
      assert rows[..j + 1][..j] == rows[..j];
      if rows[j].pairing.awayPlayer == away {
        found, count := Some(rows[j]), count + 1;
      }
    }
    assert rows[..|rows|] == rows;
  }

  method ResolveSlot(earlier: seq<RoundRow>, p: Pairing, handicaps: map<int, real>) returns (hc: Option<PairingHC>)
    ensures hc == if Ambiguous(earlier, p) then None else Some(Effective(earlier, p, handicaps))
  {
    var homeHC, awayHC := Current(handicaps, p.homePlayer), Current(handicaps, p.awayPlayer);
    var byHome := FindByHome(earlier, p.homePlayer);
    if byHome.Some? {
      var row := byHome.value;
      if row.homeHC.Some? {
        homeHC := row.homeHC.value;
      }
      if row.pairing.awayPlayer == p.awayPlayer && row.awayHC.Some? {
        awayHC := row.awayHC.value;
      }
    } else {
      var byAway, count := FindByAway(earlier, p.awayPlayer);
      if count > 1 {
        return None;
      }
      if count == 1 && byAway.value.awayHC.Some? {
        awayHC := byAway.value.awayHC.value;
      }
    }
    return Some(PairingHC(homeHC, awayHC));
  }

  /** With nothing stored, a slot takes the handicaps the players have. */
  lemma FirstSlot(p: Pairing, handicaps: map<int, real>)
    requires p.homePlayer in handicaps && p.awayPlayer in handicaps
    ensures !Ambiguous(RowsIn([], p.round), p)
    ensures Effective(RowsIn([], p.round), p, handicaps) == PairingHC(handicaps[p.homePlayer], handicaps[p.awayPlayer])
  {
  }

  /** Resolve every slot, stopping at the first ambiguous one. */
  method ResolveSlots(stored: seq<RoundRow>, ps: seq<Pairing>, handicaps: map<int, real>) returns (hcs: Option<seq<PairingHC>>)
    ensures hcs.None? <==> exists i :: 0 <= i < |ps| && Ambiguous(RowsIn(stored, ps[i].round), ps[i])
    ensures hcs.Some? ==> hcs.value == HandicapsFor(stored, ps, handicaps)
    ensures stored == [] && (forall i :: 0 <= i < |ps| ==> ps[i].homePlayer in handicaps && ps[i].awayPlayer in handicaps) ==>
              && hcs.Some? && |hcs.value| == |ps|
              && forall i :: 0 <= i < |ps| ==> hcs.value[i] == PairingHC(handicaps[ps[i].homePlayer], handicaps[ps[i].awayPlayer])
  {
    hide Ambiguous, Effective, RowsIn, Group;
    forall i | 0 <= i < |ps| && ps[i].homePlayer in handicaps && ps[i].awayPlayer in handicaps
      ensures !Ambiguous(RowsIn([], ps[i].round), ps[i])
      ensures Effective(RowsIn([], ps[i].round), ps[i], handicaps) == PairingHC(handicaps[ps[i].homePlayer], handicaps[ps[i].awayPlayer])
    {
      FirstSlot(ps[i], handicaps);
    }
    var byRound := GroupByRound(stored);
    var resolved := [];
    for i := 0 to |ps|
      invariant |resolved| == i
      invariant forall j :: 0 <= j < i ==> !Ambiguous(RowsIn(stored, ps[j].round), ps[j])
      invariant forall j :: 0 <= j < i ==> resolved[j] == Effective(RowsIn(stored, ps[j].round), ps[j], handicaps)
    {
      var earlier := Group(byRound, ps[i].round);
      assert earlier == RowsIn(stored, ps[i].round);
      var hc := ResolveSlot(earlier, ps[i], handicaps);
      if hc.None? {
        assert Ambiguous(RowsIn(stored, ps[i].round), ps[i]);
        return None;
      }
      resolved := resolved + [hc.value];
    }
    return Some(resolved);
  }
}
