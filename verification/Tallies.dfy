/** Counting wins and losses by player, and adding the counts up again. */
module Tallies {
  import opened Prelude

  function Count(xs: seq<int>, x: int): nat {
    multiset(xs)[x]
  }

  lemma CountConcat(xs: seq<int>, ys: seq<int>, x: int)
    ensures Count(xs + ys, x) == Count(xs, x) + Count(ys, x)
  {
  }

  lemma CountSingle(y: int, x: int)
    ensures Count([y], x) == if x == y then 1 else 0
    ensures Count([], x) == 0
  {
  }

  /** How often the players occur in xs, taken together. */
  function TotalCount(players: seq<int>, xs: seq<int>): nat {
    if players == [] then 0
    else TotalCount(players[..|players| - 1], xs) + Count(xs, players[|players| - 1])
  }

  lemma {:induction false} TotalCountOfNone(players: seq<int>)
    ensures TotalCount(players, []) == 0
  {
    if players != [] {
      TotalCountOfNone(players[..|players| - 1]);
    }
  }

  lemma {:induction false} TotalCountStep(players: seq<int>, xs: seq<int>, x: int)
    requires Distinct(players)
    ensures TotalCount(players, xs + [x]) == TotalCount(players, xs) + if x in players then 1 else 0
  {
    if players != [] {
      var n := |players| - 1;
      TotalCountStep(players[..n], xs, x);
      CountConcat(xs, [x], players[n]);
      assert players == players[..n] + [players[n]];
      assert x in players <==> x in players[..n] || x == players[n];
    }
  }

  /** Counting xs player by player misses nothing and repeats nothing. */
  lemma {:induction false} CountsAddUp(players: seq<int>, xs: seq<int>)
    requires Distinct(players) && forall x :: x in xs ==> x in players
    ensures TotalCount(players, xs) == |xs|
  {
    if xs == [] {
      TotalCountOfNone(players);
    } else {
      var n := |xs| - 1;
      assert xs == xs[..n] + [xs[n]];
      CountsAddUp(players, xs[..n]);
      TotalCountStep(players, xs[..n], xs[n]);
    }
  }
}
