/** Ascending sequences of integers: what sort.Ints leaves behind. */
module Ordering {
  import opened Prelude

  ghost predicate Ascending(s: seq<int>) {
    forall i, j :: 0 <= i < j < |s| ==> s[i] < s[j]
  }

  function Elements(s: seq<int>): set<int> {
    set i | 0 <= i < |s| :: s[i]
  }

  lemma ElementsAppend(s: seq<int>, x: int)
    ensures Elements(s + [x]) == Elements(s) + {x}
  {
    var t := s + [x];
    assert t[|s|] == x;
    forall y | y in Elements(s)
      ensures y in Elements(t)
    {
      var i :| 0 <= i < |s| && s[i] == y;
      assert t[i] == y;
    }
  }

  lemma {:induction false} ElementsCount(s: seq<int>)
    requires Ascending(s)
    ensures |Elements(s)| == |s|
  {
    if s != [] {
      var init, last := s[..|s| - 1], s[|s| - 1];
      assert s == init + [last];
      ElementsAppend(init, last);
      ElementsCount(init);
    }
  }

  /** The last element is the greatest; without it, the rest of the set is left. */
  lemma AscendingLast(s: seq<int>)
    requires Ascending(s) && s != []
    ensures IsMaximum(Elements(s), s[|s| - 1])
    ensures Elements(s[..|s| - 1]) == Elements(s) - {s[|s| - 1]}
  {
    var init, last := s[..|s| - 1], s[|s| - 1];
    assert s == init + [last];
    ElementsAppend(init, last);
    assert last !in Elements(init);
  }

  /** There is only one way to put a set of integers in ascending order. */
  lemma {:induction false} AscendingIsUnique(a: seq<int>, b: seq<int>)
    requires Ascending(a) && Ascending(b) && Elements(a) == Elements(b)
    ensures a == b
  {
    ElementsCount(a);
    ElementsCount(b);
    if a != [] {
      AscendingLast(a);
      AscendingLast(b);
      hide Elements;
      assert a[|a| - 1] == b[|b| - 1];
      AscendingIsUnique(a[..|a| - 1], b[..|b| - 1]);
      assert a == a[..|a| - 1] + [a[|a| - 1]] && b == b[..|b| - 1] + [b[|b| - 1]];
    }
  }

  ghost predicate IsMaximum(s: set<int>, m: int) {
    m in s && forall x :: x in s ==> x <= m
  }

  lemma {:induction false} HasMaximum(s: set<int>)
    requires s != {}
    ensures exists m :: IsMaximum(s, m)
    decreases |s|
  {
    var y := SomeElement(s);
    var rest := s - {y};
    if rest == {} {
      assert s == {y};
      assert IsMaximum(s, y);
    } else {
      assert |rest| < |s|;
      HasMaximum(rest);
      var m :| IsMaximum(rest, m);
      assert IsMaximum(s, Max(m, y)) by {
        forall x | x in s
          ensures x <= Max(m, y)
        {
          assert x == y || x in rest;
        }
      }
    }
  }

  lemma AscendingAppend(s: seq<int>, x: int)
    requires Ascending(s) && forall y :: y in Elements(s) ==> y < x
    ensures Ascending(s + [x])
  {
    forall i | 0 <= i < |s|
      ensures s[i] < x
    {
      assert s[i] in Elements(s);
    }
  }

  /** A set of integers in ascending order. */
  ghost function Ordered(s: set<int>): (r: seq<int>)
    ensures Ascending(r) && Elements(r) == s
    decreases |s|
  {
    if s == {} then []
    else
      HasMaximum(s);
      var m :| IsMaximum(s, m);
      var rest := Ordered(s - {m});
      ElementsAppend(rest, m);
      AscendingAppend(rest, m);
      rest + [m]
  }

  lemma ElementsConcat(s: seq<int>, t: seq<int>)
    ensures Elements(s + t) == Elements(s) + Elements(t)
  {
    forall y | y in Elements(s) + Elements(t)
      ensures y in Elements(s + t)
    {
      if y in Elements(s) {
        var i :| 0 <= i < |s| && s[i] == y;
        assert (s + t)[i] == y;
      } else {
        var i :| 0 <= i < |t| && t[i] == y;
        assert (s + t)[|s| + i] == y;
      }
    }
  }

  lemma AscendingInsert(s: seq<int>, k: nat, x: int)
    requires Ascending(s) && k <= |s|
    requires k > 0 ==> s[k - 1] < x
    requires k < |s| ==> x < s[k]
    ensures Ascending(s[..k] + [x] + s[k..])
  {
    var r := s[..k] + [x] + s[k..];
    forall i, j | 0 <= i < j < |r|
      ensures r[i] < r[j]
    {
      assert i < k ==> s[i] <= s[k - 1];
      assert j > k ==> s[k] <= s[j - 1];
    }
  }

  lemma ElementsInsert(s: seq<int>, k: nat, x: int)
    requires k <= |s|
    ensures Elements(s[..k] + [x] + s[k..]) == Elements(s) + {x}
  {
    var u, v := s[..k], s[k..];
    assert s == u + v;
    hide Elements;
    ElementsConcat(u, v);
    ElementsAppend(u, x);
    ElementsConcat(u + [x], v);
  }

  /** Put x where it belongs in an ascending sequence. */
  method InsertAscending(x: int, s: seq<int>) returns (r: seq<int>)
    requires Ascending(s) && x !in Elements(s)
    ensures Ascending(r) && Elements(r) == Elements(s) + {x}
  {
    var k := |s|;
    while k > 0 && s[k - 1] > x
      invariant 0 <= k <= |s|
      invariant k < |s| ==> x < s[k]
    {
      k := k - 1;
    }
    assert k > 0 ==> s[k - 1] in Elements(s);
    AscendingInsert(s, k, x);
    ElementsInsert(s, k, x);
    r := s[..k] + [x] + s[k..];
  }

  /** Collect a set in whatever order the iteration gives, and sort it. */
  method SortedElements(s: set<int>) returns (r: seq<int>)
    ensures r == Ordered(s)
  {
    r := [];
    var remaining := s;
    while remaining != {}
      invariant remaining <= s && Ascending(r) && Elements(r) == s - remaining
      decreases remaining
    {
      ghost var _ := SomeElement(remaining);
      var x :| x in remaining;
      r := InsertAscending(x, r);
      remaining := remaining - {x};
    }
    AscendingIsUnique(r, Ordered(s));
  }

  /** The members of a sequence that a set does not contain, in their order. */
  function Without(s: seq<int>, excluded: set<int>): (r: seq<int>)
    ensures |r| <= |s|
  {
    if s == [] then []
    else
      var init, last := s[..|s| - 1], s[|s| - 1];
      Without(init, excluded) + if last in excluded then [] else [last]
  }

  lemma {:induction false} WithoutIsAscending(s: seq<int>, excluded: set<int>)
    requires Ascending(s)
    ensures Ascending(Without(s, excluded))
    ensures Elements(Without(s, excluded)) == Elements(s) - excluded
  {
    if s != [] {
      var init, last := s[..|s| - 1], s[|s| - 1];
      assert Without(s, excluded) == Without(init, excluded) + if last in excluded then [] else [last];
      assert s == init + [last];
      AscendingLast(s);
      WithoutIsAscending(init, excluded);
      hide Without, Elements;
      OneMoreKept(Without(init, excluded), Elements(init), last, excluded);
    }
  }

  /** A last element is kept or left out; what was kept before it is smaller. */
  lemma OneMoreKept(kept: seq<int>, before: set<int>, last: int, excluded: set<int>)
    requires Ascending(kept) && Elements(kept) == before - excluded && last !in before
    requires forall x :: x in before ==> x <= last
    ensures last !in excluded ==> Ascending(kept + [last]) && Elements(kept + [last]) == before + {last} - excluded
    ensures last in excluded ==> kept + [] == kept && Elements(kept) == before + {last} - excluded
  {
    ElementsAppend(kept, last);
    hide Elements;
    if last !in excluded {
      AscendingAppend(kept, last);
    }
  }
}
