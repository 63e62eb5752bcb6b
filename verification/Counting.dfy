/** Counting list positions, and comparing counts through one-to-one relations. */
module Counting {
  import opened Prelude

  /** The positions of `s` whose elements satisfy `p`. */
  ghost function Where<T>(s: seq<T>, p: T -> bool): set<nat> {
    set i: nat | i < |s| && p(s[i])
  }

  lemma FilterLast<T>(s: seq<T>, x: T, p: T -> bool)
    ensures |Filter(s + [x], p)| == |Filter(s, p)| + (if p(x) then 1 else 0)
  {
    FilterAppend(s, [x], p);
    assert Filter([x], p) == if p(x) then [x] else [];
  }

  lemma WhereLast<T>(s: seq<T>, x: T, p: T -> bool)
    ensures |Where(s + [x], p)| == |Where(s, p)| + (if p(x) then 1 else 0)
  {
    var front, all := Where(s, p), Where(s + [x], p);
    forall i: nat ensures i in all <==> i in front || (i == |s| && p(x)) {
    }
    assert all == if p(x) then front + {|s|} else front;
  }

  lemma {:induction false} FilterCountsPositions<T>(s: seq<T>, p: T -> bool)
    ensures |Filter(s, p)| == |Where(s, p)|
  {
    if s == [] {
      assert Where(s, p) == {};
    } else {
      var n := |s| - 1;
      assert s == s[..n] + [s[n]];
      FilterCountsPositions(s[..n], p);
      FilterLast(s[..n], s[n], p);
      WhereLast(s[..n], s[n], p);
    }
  }

  /** A relation that pairs every member of `a` with a member of `b`, no two with the same one. */
  lemma {:induction false} InjectionBoundsSize(a: set<nat>, b: set<nat>, related: (nat, nat) -> bool)
    requires forall x | x in a :: exists y :: y in b && related(x, y)
    requires forall x, z, y | x in a && z in a && y in b && related(x, y) && related(z, y) :: x == z
    ensures |a| <= |b|
    decreases |a|
  {
    if a != {} {
      var x :| x in a;
      var y :| y in b && related(x, y);
      forall z | z in a - {x} ensures exists w :: w in b - {y} && related(z, w) {
        var w :| w in b && related(z, w);
        assert w != y;
      }
      InjectionBoundsSize(a - {x}, b - {y}, related);
    }
  }

  lemma BijectionKeepsSize(a: set<nat>, b: set<nat>, related: (nat, nat) -> bool)
    requires forall x | x in a :: exists y :: y in b && related(x, y)
    requires forall y | y in b :: exists x :: x in a && related(x, y)
    requires forall x, z, y | x in a && z in a && y in b && related(x, y) && related(z, y) :: x == z
    requires forall x, y, z | x in a && y in b && z in b && related(x, y) && related(x, z) :: y == z
    ensures |a| == |b|
  {
    InjectionBoundsSize(a, b, related);
    var inverse: (nat, nat) -> bool := (y: nat, x: nat) => related(x, y);
    forall y | y in b ensures exists x :: x in a && inverse(y, x) {
      var x :| x in a && related(x, y);
      assert inverse(y, x);
    }
    forall x, z, y | x in b && z in b && y in a && inverse(x, y) && inverse(z, y) ensures x == z {
      assert related(y, x) && related(y, z);
    }
    InjectionBoundsSize(b, a, inverse);
  }
}
