/** Filtering lists: ranges, repetitions, sizes. */
module Lists {
  import opened Prelude

  lemma {:induction false} FilterNone<T>(s: seq<T>, p: T -> bool)
    requires forall x | x in s :: !p(x)
    ensures Filter(s, p) == []
  {
    if s != [] {
      assert s[0] in s;
      FilterNone(s[1..], p);
    }
  }

  lemma {:induction false} FilterAll<T>(s: seq<T>, p: T -> bool)
    requires forall x | x in s :: p(x)
    ensures Filter(s, p) == s
  {
    if s != [] {
      assert s[0] in s;
      FilterAll(s[1..], p);
    }
  }

  lemma DropNone<T>(s: seq<T>, p: T -> bool, b: nat)
    requires b <= |s| && forall k | b <= k < |s| :: !p(s[k])
    ensures Filter(s[b..], p) == []
  {
    forall x | x in s[b..] ensures !p(x) {
      var k :| 0 <= k < |s| - b && s[b..][k] == x;
      assert s[b + k] == x;
    }
    FilterNone(s[b..], p);
  }

  lemma TakeNone<T>(s: seq<T>, p: T -> bool, a: nat)
    requires a <= |s| && forall k | 0 <= k < a :: !p(s[k])
    ensures Filter(s[..a], p) == []
  {
    forall x | x in s[..a] ensures !p(x) {
      var k :| 0 <= k < a && s[..a][k] == x;
      assert s[k] == x;
    }
    FilterNone(s[..a], p);
  }

  lemma SplitFilter<T>(s: seq<T>, p: T -> bool, a: nat)
    requires a <= |s|
    ensures Filter(s, p) == Filter(s[..a], p) + Filter(s[a..], p)
  {
    assert s == s[..a] + s[a..];
    FilterAppend(s[..a], s[a..], p);
  }

  lemma FilterSkips<T>(s: seq<T>, p: T -> bool, a: nat)
    requires a <= |s| && forall k | 0 <= k < a :: !p(s[k])
    ensures Filter(s, p) == Filter(s[a..], p)
  {
    SplitFilter(s, p, a);
    TakeNone(s, p, a);
    assert [] + Filter(s[a..], p) == Filter(s[a..], p);
  }

  lemma FilterStops<T>(s: seq<T>, p: T -> bool, b: nat)
    requires b <= |s| && forall k | b <= k < |s| :: !p(s[k])
    ensures Filter(s, p) == Filter(s[..b], p)
  {
    SplitFilter(s, p, b);
    DropNone(s, p, b);
    assert Filter(s[..b], p) + [] == Filter(s[..b], p);
  }

  lemma SliceAllHold<T>(s: seq<T>, p: T -> bool, a: nat, b: nat)
    requires a <= b <= |s| && forall k | a <= k < b :: p(s[k])
    ensures Filter(s[a..b], p) == s[a..b]
  {
    forall x | x in s[a..b] ensures p(x) {
      var k :| 0 <= k < b - a && s[a..b][k] == x;
      assert s[a + k] == x;
    }
    FilterAll(s[a..b], p);
  }

  lemma FilterRange<T>(s: seq<T>, p: T -> bool, a: nat, b: nat)
    requires a <= b <= |s| && forall k | 0 <= k < |s| :: p(s[k]) <==> a <= k < b
    ensures Filter(s, p) == s[a..b]
  {
    FilterStops(s, p, b);
    FilterSkips(s[..b], p, a);
    assert s[..b][a..] == s[a..b];
    SliceAllHold(s, p, a, b);
  }

  lemma {:induction false} FilterKeepsDistinct<T>(s: seq<T>, p: T -> bool)
    requires Distinct(s)
    ensures Distinct(Filter(s, p))
  {
    if s != [] {
      FilterKeepsDistinct(s[1..], p);
      assert forall x | x in Filter(s[1..], p) :: x in s[1..];
      assert s[0] !in s[1..];
    }
  }

  lemma SliceOfSlice<T>(s: seq<T>, lo: nat, hi: nat, a: nat, b: nat)
    requires lo <= a <= b <= hi <= |s|
    ensures s[lo..hi][a - lo..b - lo] == s[a..b]
  {
    var inner, outer := s[lo..hi][a - lo..b - lo], s[a..b];
    forall k | 0 <= k < b - a ensures inner[k] == outer[k] {
      assert s[lo..hi][a - lo + k] == s[a + k];
    }
  }

  lemma SliceHolds<T>(s: seq<T>, p: T -> bool, lo: nat, hi: nat, a: nat, b: nat)
    requires lo <= a <= b <= hi <= |s| && forall k | lo <= k < hi :: p(s[k]) <==> a <= k < b
    ensures forall k | 0 <= k < hi - lo :: p(s[lo..hi][k]) <==> a - lo <= k < b - lo
  {
    forall k | 0 <= k < hi - lo ensures p(s[lo..hi][k]) <==> a - lo <= k < b - lo {
      assert s[lo..hi][k] == s[lo + k];
    }
  }

  /** Filtering a slice by a property that holds on a part of it. */
  lemma FilterSlice<T>(s: seq<T>, p: T -> bool, lo: nat, hi: nat, a: nat, b: nat)
    requires lo <= a <= b <= hi <= |s| && forall k | lo <= k < hi :: p(s[k]) <==> a <= k < b
    ensures Filter(s[lo..hi], p) == s[a..b]
  {
    SliceHolds(s, p, lo, hi, a, b);
    FilterRange(s[lo..hi], p, a - lo, b - lo);
    SliceOfSlice(s, lo, hi, a, b);
  }

  /** Filtering by a property that fails at one position only takes that one out. */
  lemma {:induction false} FilterAllBut<T>(s: seq<T>, p: T -> bool, k: nat)
    requires k < |s| && forall i | 0 <= i < |s| :: p(s[i]) <==> i != k
    ensures Filter(s, p) == s[..k] + s[k + 1..]
  {
    if k == 0 {
      forall x | x in s[1..] ensures p(x) {
        var i :| 0 <= i < |s[1..]| && s[1..][i] == x;
        assert s[i + 1] == x;
      }
      FilterAll(s[1..], p);
      assert s[..0] + s[1..] == s[1..];
    } else {
      FilterAllBut(s[1..], p, k - 1);
      assert [s[0]] + (s[1..][..k - 1] + s[1..][k..]) == s[..k] + s[k + 1..];
    }
  }

  /** Filtering again by a stronger property is filtering by it. */
  lemma {:induction false} FilterTwice<T>(s: seq<T>, p: T -> bool, q: T -> bool)
    requires forall x | x in s && q(x) :: p(x)
    ensures Filter(Filter(s, p), q) == Filter(s, q)
  {
    if s != [] {
      FilterTwice(s[1..], p, q);
      assert s[0] in s;
      FilterAppend(if p(s[0]) then [s[0]] else [], Filter(s[1..], p), q);
    }
  }

  lemma {:induction false} FilterAgrees<T>(s: seq<T>, p: T -> bool, q: T -> bool)
    requires forall x | x in s :: p(x) <==> q(x)
    ensures Filter(s, p) == Filter(s, q)
  {
    if s != [] {
      assert s[0] in s;
      FilterAgrees(s[1..], p, q);
    }
  }

  // ------------------------------------------------------------------- listing

  /** `listed` shows, in order and once each, exactly the members of `source` with the property. */
  predicate ListsExactly<A, B>(source: seq<A>, p: A -> bool, shows: (A, B) -> bool, listed: seq<B>)
    decreases |source|
  {
    if source == [] then listed == []
    else if p(source[0]) then listed != [] && shows(source[0], listed[0]) && ListsExactly(source[1..], p, shows, listed[1..])
    else ListsExactly(source[1..], p, shows, listed)
  }

  lemma {:induction false} ListsBoth<A, B>(a: seq<A>, b: seq<A>, p: A -> bool, shows: (A, B) -> bool, x: seq<B>, y: seq<B>)
    requires ListsExactly(a, p, shows, x) && ListsExactly(b, p, shows, y)
    ensures ListsExactly(a + b, p, shows, x + y)
    decreases |a|
  {
    if a == [] {
      assert a + b == b && x + y == y;
    } else {
      assert (a + b)[1..] == a[1..] + b;
      if p(a[0]) {
        ListsBoth(a[1..], b, p, shows, x[1..], y);
        assert (x + y)[1..] == x[1..] + y;
      } else {
        ListsBoth(a[1..], b, p, shows, x, y);
      }
    }
  }

  /** Filtering what is listed lists fewer members. */
  lemma {:induction false} FilterLists<A(!new), B(!new)>(source: seq<A>, p: A -> bool, shows: (A, B) -> bool, listed: seq<B>,
                                                         q: B -> bool, both: A -> bool)
    requires ListsExactly(source, p, shows, listed) && forall x | x in source && both(x) :: p(x)
    requires forall x, y | x in source && p(x) && shows(x, y) :: q(y) <==> both(x)
    ensures ListsExactly(source, both, shows, Filter(listed, q))
    decreases |source|
  {
    if source != [] {
      var rest := if p(source[0]) then listed[1..] else listed;
      assert source[0] in source;
      FilterLists(source[1..], p, shows, rest, q, both);
      if p(source[0]) {
        assert shows(source[0], listed[0]);
        var kept := Filter(listed, q);
        assert Filter(listed, q) == (if q(listed[0]) then [listed[0]] else []) + Filter(rest, q);
        if q(listed[0]) {
          assert kept[1..] == Filter(rest, q);
        } else {
          assert kept == Filter(rest, q);
        }
      }
    }
  }

  /** Exactly those members with the property are shown. */
  lemma {:induction false} ListedAre<A(!new), B(!new)>(source: seq<A>, p: A -> bool, shows: (A, B) -> bool, listed: seq<B>)
    requires ListsExactly(source, p, shows, listed)
    ensures forall y | y in listed :: exists x :: x in source && p(x) && shows(x, y)
    ensures forall x | x in source && p(x) :: exists y :: y in listed && shows(x, y)
    decreases |source|
  {
    if source != [] {
      var rest := if p(source[0]) then listed[1..] else listed;
      ListedAre(source[1..], p, shows, rest);
      forall y | y in listed ensures exists x :: x in source && p(x) && shows(x, y) {
        if y in rest {
          var x :| x in source[1..] && p(x) && shows(x, y);
        } else {
          assert y == listed[0] && source[0] in source;
        }
      }
      forall x | x in source && p(x) ensures exists y :: y in listed && shows(x, y) {
        if x in source[1..] {
          var y :| y in rest && shows(x, y);
        } else {
          assert x == source[0] && listed[0] in listed;
        }
      }
    }
  }

  function Elements<T>(s: seq<T>): set<T> {
    set x | x in s
  }

  lemma {:induction false} DistinctSize<T>(s: seq<T>)
    requires Distinct(s)
    ensures |Elements(s)| == |s|
  {
    if s != [] {
      var n := |s| - 1;
      DistinctSize(s[..n]);
      assert Elements(s) == Elements(s[..n]) + {s[n]};
      assert s[n] !in Elements(s[..n]);
    }
  }

  // ------------------------------------------------------------------- folding

  function Fold<E, R>(step: (R, E) -> R, r: R, events: seq<E>): R
    decreases |events|
  {
    if events == [] then r else Fold(step, step(r, events[0]), events[1..])
  }

  lemma FoldTwo<E, R>(step: (R, E) -> R, r: R, a: E, b: E)
    ensures Fold(step, r, [a]) == step(r, a) && Fold(step, r, [a, b]) == step(step(r, a), b)
  {
    assert [a][1..] == [] && [a, b][1..] == [b] && [b][1..] == [];
    assert Fold(step, step(r, a), []) == step(r, a) && Fold(step, step(step(r, a), b), []) == step(step(r, a), b);
    assert Fold(step, step(r, a), [b]) == Fold(step, step(step(r, a), b), []);
  }

  /** Every step of the fold is allowed. */
  predicate Feasible<E, R>(ok: (R, E) -> bool, step: (R, E) -> R, r: R, events: seq<E>)
    decreases |events|
  {
    events == [] || (ok(r, events[0]) && Feasible(ok, step, step(r, events[0]), events[1..]))
  }

  /** No allowed step breaks the property. */
  ghost predicate KeptBySteps<E(!new), R(!new)>(property: (seq<E>, R) -> bool, ok: (R, E) -> bool, step: (R, E) -> R) {
    forall es, r, e {:trigger property(es + [e], step(r, e))} | property(es, r) && ok(r, e) :: property(es + [e], step(r, e))
  }

  /** What every allowed step keeps of a list and its fold, the whole fold keeps. */
  lemma {:induction false} FoldInduction<E(!new), R(!new)>(property: (seq<E>, R) -> bool, ok: (R, E) -> bool, step: (R, E) -> R,
                                                         prior: seq<E>, r: R, events: seq<E>)
    requires KeptBySteps(property, ok, step) && property(prior, r) && Feasible(ok, step, r, events)
    ensures property(prior + events, Fold(step, r, events))
    decreases |events|
  {
    if events == [] {
      assert prior + events == prior;
    } else {
      assert property(prior + [events[0]], step(r, events[0]));
      FoldInduction(property, ok, step, prior + [events[0]], step(r, events[0]), events[1..]);
      assert prior + [events[0]] + events[1..] == prior + events;
    }
  }
}
