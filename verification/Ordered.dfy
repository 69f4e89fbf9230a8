/**
 Ordered traversal of finite integer sets: the source iterates `std::map`, which
 visits its keys in ascending order.
 */
module Ordered {

  lemma HasLeast(s: set<int>)
    requires s != {}
    ensures exists m :: m in s && forall x | x in s :: m <= x
  {
    assert (forall x :: x !in s) ==> s == {};
    var m :| m in s;
    if s - {m} == {} {
      assert s == {m};
    } else {
      HasLeast(s - {m});
      var n :| n in s - {m} && forall x | x in s - {m} :: n <= x;
      var l := if m <= n then m else n;
      assert l in s && forall x | x in s :: l <= x by {
        assert forall x | x in s :: x == m || x in s - {m};
      }
    }
  }

  /** The first key of a non-empty ordered map. */
  function Least(s: set<int>): (m: int)
    requires s != {}
    ensures m in s && forall x | x in s :: m <= x
  {
    HasLeast(s);
    var m :| m in s && forall x | x in s :: m <= x;
    m
  }

  ghost predicate Ascending(r: seq<nat>) {
    forall i, j | 0 <= i < j < |r| :: r[i] < r[j]
  }

  /** The sequence has exactly the elements of the set. */
  ghost predicate Lists(r: seq<nat>, s: set<nat>) {
    |r| == |s| && (forall i | 0 <= i < |r| :: r[i] in s) && forall x | x in s :: x in r
  }

  lemma LeastFirst(s: set<nat>, m: nat, rest: seq<nat>)
    requires m in s && (forall x | x in s :: m <= x) && Lists(rest, s - {m}) && Ascending(rest)
    ensures Lists([m] + rest, s) && Ascending([m] + rest)
  {
    var r := [m] + rest;
    assert |s - {m}| == |s| - 1;
    forall x | x in s
      ensures x in r
    {
      if x != m {
        assert x in s - {m};
        assert x in rest;
      }
    }
    forall i, j | 0 <= i < j < |r|
      ensures r[i] < r[j]
    {
      assert r[j] == rest[j - 1] && rest[j - 1] in s - {m};
      if i > 0 { assert r[i] == rest[i - 1]; }
    }
  }

  /** The keys of an ordered map, in iteration order. */
  function Sorted(s: set<nat>): (r: seq<nat>)
    ensures |r| == |s|
    ensures forall i | 0 <= i < |r| :: r[i] in s
    ensures forall x | x in s :: x in r
    ensures forall i, j | 0 <= i < j < |r| :: r[i] < r[j]
    decreases |s|
  {
    if s == {} then []
    else
      var m: nat := Least(s);
      var rest := Sorted(s - {m});
      LeastFirst(s, m, rest);
      [m] + rest
  }
}
