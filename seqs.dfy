/**
 * Folds over sequences that the route handlers compute with loops: counting,
 * summing, filtering, the first strict maximum, and runs of consecutive
 * elements. Each is defined by recursion on the LAST element, which is the
 * order in which a `for ... of` loop accumulates it.
 */
module Seqs {
  import opened Wrappers

  // ---------------------------------------------------------------- counting

  /** Number of elements of `s` that satisfy `p`. */
  function Count<T>(s: seq<T>, p: T -> bool): (n: nat)
    ensures n <= |s|
  {
    if s == [] then 0 else Count(s[..|s| - 1], p) + (if p(s[|s| - 1]) then 1 else 0)
  }

  lemma {:induction false} CountAppend<T>(a: seq<T>, b: seq<T>, p: T -> bool)
    ensures Count(a + b, p) == Count(a, p) + Count(b, p)
  {
    if b != [] {
      assert (a + b)[..|a + b| - 1] == a + b[..|b| - 1];
      CountAppend(a, b[..|b| - 1], p);
    } else {
      assert a + b == a;
    }
  }

  /** Two predicates that split every element one way or the other split the count. */
  lemma {:induction false} CountPartition<T>(s: seq<T>, p: T -> bool, q: T -> bool, r: T -> bool)
    requires forall x :: r(x) <==> (p(x) || q(x))
    requires forall x :: !(p(x) && q(x))
    ensures Count(s, r) == Count(s, p) + Count(s, q)
  {
    if s != [] {
      CountPartition(s[..|s| - 1], p, q, r);
    }
  }

  /** An element satisfies `p` somewhere iff the count is positive. */
  lemma {:induction false} CountPositive<T>(s: seq<T>, p: T -> bool)
    ensures Count(s, p) > 0 <==> exists i :: 0 <= i < |s| && p(s[i])
  {
    if s != [] {
      var t := s[..|s| - 1];
      CountPositive(t, p);
      if exists i :: 0 <= i < |t| && p(t[i]) {
        var i :| 0 <= i < |t| && p(t[i]);
        assert s[i] == t[i];
      }
      if exists i :: 0 <= i < |s| && p(s[i]) {
        var i :| 0 <= i < |s| && p(s[i]);
        if i < |t| { assert t[i] == s[i]; }
      }
    }
  }

  /** Two different positions that satisfy `p` make the count at least 2. */
  lemma {:induction false} CountTwo<T>(s: seq<T>, p: T -> bool, i: int, j: int)
    requires 0 <= i < j < |s| && p(s[i]) && p(s[j])
    ensures Count(s, p) >= 2
  {
    var t := s[..|s| - 1];
    if j < |s| - 1 {
      CountTwo(t, p, i, j);
    } else {
      assert t[i] == s[i];
      CountPositive(t, p);
    }
  }

  // ----------------------------------------------------------------- summing

  /** Sum of `f` over the elements of `s`. */
  function SumOf<T>(s: seq<T>, f: T -> int): int
  {
    if s == [] then 0 else SumOf(s[..|s| - 1], f) + f(s[|s| - 1])
  }

  lemma {:induction false} SumOfAppend<T>(a: seq<T>, b: seq<T>, f: T -> int)
    ensures SumOf(a + b, f) == SumOf(a, f) + SumOf(b, f)
  {
    if b != [] {
      assert (a + b)[..|a + b| - 1] == a + b[..|b| - 1];
      SumOfAppend(a, b[..|b| - 1], f);
    } else {
      assert a + b == a;
    }
  }

  lemma {:induction false} SumOfNonNegative<T>(s: seq<T>, f: T -> int)
    requires forall x :: f(x) >= 0
    ensures SumOf(s, f) >= 0
  {
    if s != [] {
      SumOfNonNegative(s[..|s| - 1], f);
    }
  }

  // --------------------------------------------------------------- filtering

  /** `Array.prototype.filter`: the elements satisfying `p`, in their original order. */
  function Filter<T>(s: seq<T>, p: T -> bool): (r: seq<T>)
    ensures |r| == Count(s, p)
    ensures forall x :: x in r ==> x in s && p(x)
  {
    if s == [] then [] else
      var rest := Filter(s[..|s| - 1], p);
      if p(s[|s| - 1]) then rest + [s[|s| - 1]] else rest
  }

  lemma FilterSnoc<T>(s: seq<T>, x: T, p: T -> bool)
    ensures Filter(s + [x], p) == Filter(s, p) + (if p(x) then [x] else [])
  {
    assert (s + [x])[..|s|] == s;
  }

  /** Every element that satisfies `p` is kept. */
  lemma {:induction false} FilterKeeps<T>(s: seq<T>, p: T -> bool, i: nat)
    requires i < |s| && p(s[i])
    ensures s[i] in Filter(s, p)
  {
    if i < |s| - 1 {
      FilterKeeps(s[..|s| - 1], p, i);
    }
  }

  /** Counting over a filtered sequence counts the conjunction over the original. */
  lemma {:induction false} CountFilter<T>(s: seq<T>, p: T -> bool, q: T -> bool, r: T -> bool)
    requires forall x :: r(x) <==> (p(x) && q(x))
    ensures Count(Filter(s, p), q) == Count(s, r)
  {
    if s != [] {
      var t := s[..|s| - 1];
      CountFilter(t, p, q, r);
      if p(s[|s| - 1]) {
        CountAppend(Filter(t, p), [s[|s| - 1]], q);
        assert Count([s[|s| - 1]], q) == Count([s[|s| - 1]][..0], q) + (if q(s[|s| - 1]) then 1 else 0);
      }
    }
  }

  /** The test "has key `k`", as a predicate to filter or count by. */
  function KeyIs<T, K(==)>(key: T -> K, k: K): T -> bool
  {
    x => key(x) == k
  }

  // ----------------------------------------------------------------- folding

  /** Left fold: start from `zero` and apply `step` for each element in order. */
  function Fold<T, V>(s: seq<T>, zero: V, step: (V, T) -> V): V
  {
    if s == [] then zero else step(Fold(s[..|s| - 1], zero, step), s[|s| - 1])
  }

  /** One more element is one more `step`. */
  lemma FoldSnoc<T, V>(s: seq<T>, x: T, zero: V, step: (V, T) -> V)
    ensures Fold(s + [x], zero, step) == step(Fold(s, zero, step), x)
  {
    assert (s + [x])[..|s|] == s;
  }

  // ------------------------------------------------------- first strict maximum

  /**
   * The element a running "keep it if strictly greater" scan ends with:
   * `None` for an empty sequence, otherwise the first element whose `f` is maximal.
   */
  function FirstMax<T>(s: seq<T>, f: T -> int): Option<T>
  {
    if s == [] then None else
      var best := FirstMax(s[..|s| - 1], f);
      if best.None? || f(s[|s| - 1]) > f(best.value) then Some(s[|s| - 1]) else best
  }

  lemma {:induction false} FirstMaxIsFirstMaximum<T>(s: seq<T>, f: T -> int)
    ensures FirstMax(s, f).None? <==> s == []
    ensures FirstMax(s, f).Some? ==>
      exists k :: 0 <= k < |s| && s[k] == FirstMax(s, f).value
        && (forall j :: 0 <= j < |s| ==> f(s[j]) <= f(s[k]))
        && (forall j :: 0 <= j < k ==> f(s[j]) < f(s[k]))
  {
    if s != [] {
      var t := s[..|s| - 1];
      var last := s[|s| - 1];
      FirstMaxIsFirstMaximum(t, f);
      var best := FirstMax(t, f);
      if best.None? {
        assert t == [];
        assert s[0] == last;
      } else if f(last) > f(best.value) {
        var k :| 0 <= k < |t| && t[k] == best.value
          && (forall j :: 0 <= j < |t| ==> f(t[j]) <= f(t[k]));
        forall j | 0 <= j < |s|
          ensures f(s[j]) <= f(s[|s| - 1])
        {
          if j < |t| { assert s[j] == t[j]; assert f(t[j]) <= f(t[k]); }
        }
        forall j | 0 <= j < |s| - 1
          ensures f(s[j]) < f(s[|s| - 1])
        {
          assert s[j] == t[j]; assert f(t[j]) <= f(t[k]);
        }
      } else {
        var k :| 0 <= k < |t| && t[k] == best.value
          && (forall j :: 0 <= j < |t| ==> f(t[j]) <= f(t[k]))
          && (forall j :: 0 <= j < k ==> f(t[j]) < f(t[k]));
        assert s[k] == t[k];
        forall j | 0 <= j < |s|
          ensures f(s[j]) <= f(s[k])
        {
          if j < |t| { assert s[j] == t[j]; }
        }
        forall j | 0 <= j < k
          ensures f(s[j]) < f(s[k])
        {
          assert s[j] == t[j];
        }
      }
    }
  }

  // ------------------------------------------------------------------- runs

  /** Length of the run of elements satisfying `p` that ends `s`. */
  function TrailingRun<T>(s: seq<T>, p: T -> bool): (n: nat)
    ensures n <= |s|
  {
    if s == [] || !p(s[|s| - 1]) then 0 else TrailingRun(s[..|s| - 1], p) + 1
  }

  /** Length of the longest run of consecutive elements satisfying `p`. */
  function LongestRun<T>(s: seq<T>, p: T -> bool): (n: nat)
    ensures TrailingRun(s, p) <= n <= |s|
  {
    if s == [] then 0 else
      var before := LongestRun(s[..|s| - 1], p);
      var now := TrailingRun(s, p);
      if before < now then now else before
  }

  ghost predicate AllOn<T>(s: seq<T>, p: T -> bool, i: int, j: int)
    requires 0 <= i <= j <= |s|
  {
    forall k :: i <= k < j ==> p(s[k])
  }

  lemma {:induction false} TrailingRunCovers<T>(s: seq<T>, p: T -> bool, i: nat)
    requires i <= |s| && AllOn(s, p, i, |s|)
    ensures |s| - i <= TrailingRun(s, p)
  {
    if i < |s| {
      var t := s[..|s| - 1];
      assert AllOn(t, p, i, |t|) by {
        forall k | i <= k < |t| ensures p(t[k]) { assert t[k] == s[k]; }
      }
      TrailingRunCovers(t, p, i);
    }
  }

  lemma {:induction false} TrailingRunIsRun<T>(s: seq<T>, p: T -> bool)
    ensures AllOn(s, p, |s| - TrailingRun(s, p), |s|)
  {
    if s != [] && p(s[|s| - 1]) {
      var t := s[..|s| - 1];
      TrailingRunIsRun(t, p);
      forall k | |s| - TrailingRun(s, p) <= k < |s| ensures p(s[k]) {
        if k < |t| { assert s[k] == t[k]; }
      }
    }
  }

  /** No run of `p`-elements is longer than LongestRun. */
  lemma {:induction false} LongestRunIsUpperBound<T>(s: seq<T>, p: T -> bool, i: nat, j: nat)
    requires i <= j <= |s| && AllOn(s, p, i, j)
    ensures j - i <= LongestRun(s, p)
  {
    if j == |s| {
      TrailingRunCovers(s, p, i);
    } else {
      var t := s[..|s| - 1];
      assert AllOn(t, p, i, j) by {
        forall k | i <= k < j ensures p(t[k]) { assert t[k] == s[k]; }
      }
      LongestRunIsUpperBound(t, p, i, j);
    }
  }

  /** Where a longest run starts (the first one that reaches the maximum). */
  ghost function LongestRunStart<T>(s: seq<T>, p: T -> bool): nat
  {
    if s == [] then 0
    else if LongestRun(s[..|s| - 1], p) < TrailingRun(s, p) then |s| - TrailingRun(s, p)
    else LongestRunStart(s[..|s| - 1], p)
  }

  /** LongestRun is the length of an actual run. */
  lemma {:induction false} LongestRunIsAttained<T>(s: seq<T>, p: T -> bool)
    ensures LongestRunStart(s, p) + LongestRun(s, p) <= |s|
    ensures AllOn(s, p, LongestRunStart(s, p), LongestRunStart(s, p) + LongestRun(s, p))
  {
    if s != [] {
      var t := s[..|s| - 1];
      if LongestRun(t, p) < TrailingRun(s, p) {
        TrailingRunIsRun(s, p);
      } else {
        LongestRunIsAttained(t, p);
        var i := LongestRunStart(t, p);
        forall k | i <= k < i + LongestRun(s, p) ensures p(s[k]) { assert s[k] == t[k]; }
      }
    }
  }

  /** When every element satisfies `p` the longest run is the whole sequence. */
  lemma {:induction false} LongestRunOfAll<T>(s: seq<T>, p: T -> bool)
    requires forall k :: 0 <= k < |s| ==> p(s[k])
    ensures LongestRun(s, p) == |s|
  {
    assert AllOn(s, p, 0, |s|);
    LongestRunIsUpperBound(s, p, 0, |s|);
  }

  /** When no element satisfies `p` there is no run at all. */
  lemma {:induction false} LongestRunOfNone<T>(s: seq<T>, p: T -> bool)
    requires forall k :: 0 <= k < |s| ==> !p(s[k])
    ensures LongestRun(s, p) == 0
  {
    if s != [] {
      var t := s[..|s| - 1];
      forall k | 0 <= k < |t| ensures !p(t[k]) { assert t[k] == s[k]; }
      LongestRunOfNone(t, p);
    }
  }

  ghost predicate Alternates<T>(s: seq<T>, p: T -> bool)
  {
    forall k :: 0 <= k < |s| - 1 ==> p(s[k]) != p(s[k + 1])
  }

  lemma {:induction false} LongestRunAlternatingAtMostOne<T>(s: seq<T>, p: T -> bool)
    requires Alternates(s, p)
    ensures LongestRun(s, p) <= 1
  {
    if s != [] {
      var t := s[..|s| - 1];
      assert Alternates(t, p) by {
        forall k | 0 <= k < |t| - 1 ensures p(t[k]) != p(t[k + 1]) {
          assert t[k] == s[k] && t[k + 1] == s[k + 1];
        }
      }
      LongestRunAlternatingAtMostOne(t, p);
      if |t| > 0 && p(s[|s| - 1]) {
        assert !p(s[|s| - 2]);
        assert t[|t| - 1] == s[|s| - 2];
      }
    }
  }

  /** In a sequence whose neighbours always differ on `p`, every run has length one. */
  lemma LongestRunAlternating<T>(s: seq<T>, p: T -> bool)
    requires |s| >= 2
    requires Alternates(s, p)
    ensures LongestRun(s, p) == 1
  {
    LongestRunAlternatingAtMostOne(s, p);
    var j := if p(s[0]) then 0 else 1;
    assert AllOn(s, p, j, j + 1);
    LongestRunIsUpperBound(s, p, j, j + 1);
  }
}
