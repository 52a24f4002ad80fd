/**
 * `Array.prototype.sort` with a comparator of the form `(a, b) => key(a) - key(b)`,
 * which the language requires to be stable: the result is ascending by `key`
 * and elements with equal keys keep their original relative order.
 */
module StableSort {
  import opened Seqs

  ghost predicate SortedBy<T>(s: seq<T>, key: T -> int)
  {
    forall i, j :: 0 <= i < j < |s| ==> key(s[i]) <= key(s[j])
  }

  /** Places `x` after every element of `xs` whose key is at most its own. */
  function InsertBy<T>(xs: seq<T>, x: T, key: T -> int): (r: seq<T>)
    ensures multiset(r) == multiset(xs) + multiset{x}
  {
    if xs == [] || key(xs[|xs| - 1]) <= key(x) then xs + [x]
    else
      var init := xs[..|xs| - 1];
      assert xs == init + [xs[|xs| - 1]];
      InsertBy(init, x, key) + [xs[|xs| - 1]]
  }

  /** The sorted copy: each element in turn is inserted behind its equals. */
  function SortBy<T>(s: seq<T>, key: T -> int): (r: seq<T>)
    ensures multiset(r) == multiset(s)
  {
    if s == [] then []
    else
      var init := s[..|s| - 1];
      assert s == init + [s[|s| - 1]];
      InsertBy(SortBy(init, key), s[|s| - 1], key)
  }

  /** Every key of `s` is at most `b`. */
  ghost predicate KeysAtMost<T>(s: seq<T>, key: T -> int, b: int)
  {
    forall i :: 0 <= i < |s| ==> key(s[i]) <= b
  }

  /** Inserting an element below a bound keeps every key below it. */
  lemma {:induction false} InsertByAtMost<T>(xs: seq<T>, x: T, key: T -> int, b: int)
    requires KeysAtMost(xs, key, b) && key(x) <= b
    ensures KeysAtMost(InsertBy(xs, x, key), key, b)
  {
    if xs != [] && key(xs[|xs| - 1]) > key(x) {
      var init := xs[..|xs| - 1];
      assert KeysAtMost(init, key, b) by {
        forall i | 0 <= i < |init| ensures key(init[i]) <= b { assert init[i] == xs[i]; }
      }
      InsertByAtMost(init, x, key, b);
    }
  }

  lemma {:induction false} InsertBySorted<T>(xs: seq<T>, x: T, key: T -> int)
    requires SortedBy(xs, key)
    ensures SortedBy(InsertBy(xs, x, key), key)
  {
    if xs != [] && key(xs[|xs| - 1]) > key(x) {
      var init := xs[..|xs| - 1];
      var y := xs[|xs| - 1];
      assert SortedBy(init, key) && KeysAtMost(init, key, key(y)) by {
        forall i | 0 <= i < |init| ensures init[i] == xs[i] { }
      }
      InsertBySorted(init, x, key);
      InsertByAtMost(init, x, key, key(y));
      var r := InsertBy(init, x, key);
      assert InsertBy(xs, x, key) == r + [y];
      forall i, j | 0 <= i < j < |r| + 1 ensures key((r + [y])[i]) <= key((r + [y])[j]) {
        assert (r + [y])[i] == r[i];
      }
    }
  }

  /** The result is ascending by key. */
  lemma {:induction false} SortBySorted<T>(s: seq<T>, key: T -> int)
    ensures SortedBy(SortBy(s, key), key)
  {
    if s != [] {
      SortBySorted(s[..|s| - 1], key);
      InsertBySorted(SortBy(s[..|s| - 1], key), s[|s| - 1], key);
    }
  }

  /** Appending the same element to two sequences keeps a filtered difference `extra` that it cannot join. */
  lemma FilterSnocShift<T>(r: seq<T>, init: seq<T>, y: T, p: T -> bool, extra: seq<T>)
    requires Filter(r, p) == Filter(init, p) + extra
    requires p(y) ==> extra == []
    ensures Filter(r + [y], p) == Filter(init + [y], p) + extra
  {
    FilterSnoc(r, y, p);
    FilterSnoc(init, y, p);
    if p(y) {
      assert Filter(r + [y], p) == Filter(init, p) + [y];
    }
  }

  lemma {:induction false} InsertByKeepsEquals<T>(xs: seq<T>, x: T, key: T -> int, k: int)
    ensures Filter(InsertBy(xs, x, key), KeyIs(key, k))
         == Filter(xs, KeyIs(key, k)) + (if key(x) == k then [x] else [])
  {
    var p := KeyIs(key, k);
    var extra: seq<T> := if key(x) == k then [x] else [];
    if xs != [] && key(xs[|xs| - 1]) > key(x) {
      var init := xs[..|xs| - 1];
      var y := xs[|xs| - 1];
      assert InsertBy(xs, x, key) == InsertBy(init, x, key) + [y];
      assert xs == init + [y];
      InsertByKeepsEquals(init, x, key, k);
      FilterSnocShift(InsertBy(init, x, key), init, y, p, extra);
    } else {
      assert InsertBy(xs, x, key) == xs + [x];
      FilterSnoc(xs, x, p);
    }
  }

  /** Stability: the elements with any one key appear in the same order as in `s`. */
  lemma {:induction false} SortByStable<T>(s: seq<T>, key: T -> int, k: int)
    ensures Filter(SortBy(s, key), KeyIs(key, k)) == Filter(s, KeyIs(key, k))
  {
    if s != [] {
      var init := s[..|s| - 1];
      SortByStable(init, key, k);
      InsertByKeepsEquals(SortBy(init, key), s[|s| - 1], key, k);
    }
  }

  lemma {:induction false} InsertByCount<T>(xs: seq<T>, x: T, key: T -> int, p: T -> bool)
    ensures Count(InsertBy(xs, x, key), p) == Count(xs, p) + (if p(x) then 1 else 0)
    ensures forall f: T -> int :: SumOf(InsertBy(xs, x, key), f) == SumOf(xs, f) + f(x)
  {
    if xs != [] && key(xs[|xs| - 1]) > key(x) {
      var init := xs[..|xs| - 1];
      InsertByCount(init, x, key, p);
      var r := InsertBy(init, x, key);
      assert (r + [xs[|xs| - 1]])[..|r|] == r;
    } else {
      assert (xs + [x])[..|xs|] == xs;
    }
  }

  /** Sorting neither changes how many elements satisfy a test nor any sum over them. */
  lemma {:induction false} SortByKeepsTotals<T>(s: seq<T>, key: T -> int, p: T -> bool, f: T -> int)
    ensures Count(SortBy(s, key), p) == Count(s, p)
    ensures SumOf(SortBy(s, key), f) == SumOf(s, f)
  {
    if s != [] {
      var init := s[..|s| - 1];
      SortByKeepsTotals(init, key, p, f);
      InsertByCount(SortBy(init, key), s[|s| - 1], key, p);
    }
  }

  /**
   * The first `n` elements of the sorted copy come from `s`, ascend, and no
   * element left out has a smaller key than one kept.
   */
  lemma SortByPrefixIsLeast<T>(s: seq<T>, key: T -> int, n: int)
    requires 0 <= n <= |s|
    ensures |SortBy(s, key)| == |s|
    ensures forall t :: t in SortBy(s, key)[..n] ==> t in s
    ensures forall i, j :: 0 <= i < j < n ==> key(SortBy(s, key)[i]) <= key(SortBy(s, key)[j])
    ensures forall e, t :: e in s && e !in SortBy(s, key)[..n] && t in SortBy(s, key)[..n] ==> key(t) <= key(e)
  {
    var r := SortBy(s, key);
    assert |multiset(r)| == |r|;
    SortBySorted(s, key);
    forall t | t in r[..n] ensures t in s {
      assert t in multiset(r);
    }
    forall e, t | e in s && e !in r[..n] && t in r[..n]
      ensures key(t) <= key(e)
    {
      assert e in multiset(s);
      var j :| 0 <= j < |r| && r[j] == e;
      var k :| 0 <= k < n && r[..n][k] == t;
      assert r[k] == t;
    }
  }
}
