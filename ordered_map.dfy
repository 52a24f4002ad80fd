/**
 * The JavaScript `Map` the route handlers tally into: a key-value store whose
 * entries iterate in the order their keys were first inserted. `set` on a key
 * already present replaces the value and keeps the key's position.
 */
module OrderedMap {
  import opened Wrappers
  import opened Seqs

  datatype OMap<K(==, !new), V> = OMap(keys: seq<K>, vals: map<K, V>)

  /** The set of elements of `s`. */
  ghost function Elements<K>(s: seq<K>): set<K>
  {
    if s == [] then {} else Elements(s[..|s| - 1]) + {s[|s| - 1]}
  }

  /** No element of `s` occurs twice. */
  ghost predicate Distinct<K>(s: seq<K>)
  {
    s == [] || (s[|s| - 1] !in Elements(s[..|s| - 1]) && Distinct(s[..|s| - 1]))
  }

  lemma {:induction false} ElementsAt<K>(s: seq<K>, i: int)
    requires 0 <= i < |s|
    ensures s[i] in Elements(s)
  {
    if i < |s| - 1 {
      ElementsAt(s[..|s| - 1], i);
    }
  }

  lemma {:induction false} ElementsHaveIndex<K>(s: seq<K>, k: K) returns (i: nat)
    requires k in Elements(s)
    ensures i < |s| && s[i] == k
  {
    if s[|s| - 1] == k {
      i := |s| - 1;
    } else {
      i := ElementsHaveIndex(s[..|s| - 1], k);
    }
  }

  /** In a distinct sequence, different positions hold different elements. */
  lemma {:induction false} DistinctAt<K>(s: seq<K>, i: int, j: int)
    requires Distinct(s) && 0 <= i < j < |s|
    ensures s[i] != s[j]
  {
    var init := s[..|s| - 1];
    if j == |s| - 1 {
      ElementsAt(init, i);
    } else {
      DistinctAt(init, i, j);
    }
  }

  /** The key order lists every stored key exactly once. */
  ghost predicate Valid<K(!new), V>(m: OMap<K, V>)
  {
    Distinct(m.keys) && m.vals.Keys == Elements(m.keys)
  }

  /** `new Map()`. */
  function Empty<K(==, !new), V>(): (m: OMap<K, V>)
    ensures m.keys == [] && m.vals == map[]
  {
    OMap([], map[])
  }

  /** `m.get(k)`, with `undefined` as `None`. */
  function Get<K(==, !new), V>(m: OMap<K, V>, k: K): (r: Option<V>)
    ensures r.Some? <==> k in m.vals
    ensures r.Some? ==> r.value == m.vals[k]
  {
    if k in m.vals then Some(m.vals[k]) else None
  }

  /** `m.set(k, v)`: a new key goes last in the order, an existing key stays where it was. */
  function Set<K(==, !new), V>(m: OMap<K, V>, k: K, v: V): (r: OMap<K, V>)
    ensures Get(r, k) == Some(v)
    ensures k in m.vals ==> r.keys == m.keys
    ensures k !in m.vals ==> r.keys == m.keys + [k]
  {
    OMap(if k in m.vals then m.keys else m.keys + [k], m.vals[k := v])
  }

  /** `Set` keeps the key order listing every stored key exactly once. */
  lemma SetValid<K(!new), V>(m: OMap<K, V>, k: K, v: V)
    requires Valid(m)
    ensures Valid(Set(m, k, v))
  {
    assert (m.keys + [k])[..|m.keys|] == m.keys;
  }

  /** `Set` on its own key reads back the value, and leaves every other key's value alone. */
  lemma GetAfterSet<K(!new), V>(m: OMap<K, V>, k: K, v: V, other: K)
    ensures Get(Set(m, k, v), k) == Some(v)
    ensures other != k ==> Get(Set(m, k, v), other) == Get(m, other)
    ensures |Set(m, k, v).keys| == |m.keys| + (if k in m.vals then 0 else 1)
  {
  }

  // ---------------------------------------------------------------- entries

  function EntriesOf<K(!new), V>(keys: seq<K>, vals: map<K, V>): (es: seq<(K, V)>)
    requires Elements(keys) <= vals.Keys
    ensures |es| == |keys|
    ensures forall i :: 0 <= i < |keys| ==> keys[i] in vals && es[i] == (keys[i], vals[keys[i]])
  {
    if keys == [] then [] else EntriesOf(keys[..|keys| - 1], vals) + [(keys[|keys| - 1], vals[keys[|keys| - 1]])]
  }

  /** `[...m.entries()]`: the key-value pairs in insertion order. */
  function Entries<K(==, !new), V>(m: OMap<K, V>): (es: seq<(K, V)>)
    requires Valid(m)
    ensures |es| == |m.keys|
    ensures forall i :: 0 <= i < |es| ==> es[i].0 == m.keys[i] && m.keys[i] in m.vals && es[i].1 == m.vals[m.keys[i]]
  {
    EntriesOf(m.keys, m.vals)
  }

  /** The key of an entry. */
  function EntryKey<K, V>(e: (K, V)): K { e.0 }

  /** A key occurs in at most one entry, and in none when it is not stored. */
  lemma {:induction false} EntriesKeyOnce<K(!new), V>(keys: seq<K>, vals: map<K, V>, k: K)
    requires Elements(keys) <= vals.Keys && Distinct(keys)
    ensures Count(EntriesOf(keys, vals), KeyIs(EntryKey, k)) <= 1
    ensures k !in Elements(keys) ==> Count(EntriesOf(keys, vals), KeyIs(EntryKey, k)) == 0
  {
    if keys != [] {
      var init := keys[..|keys| - 1];
      EntriesKeyOnce(init, vals, k);
      var es := EntriesOf(keys, vals);
      var last := keys[|keys| - 1];
      assert es[..|es| - 1] == EntriesOf(init, vals);
      assert es[|es| - 1] == (last, vals[last]);
      assert KeyIs(EntryKey, k)(es[|es| - 1]) <==> last == k;
      assert Count(es, KeyIs(EntryKey, k))
          == Count(EntriesOf(init, vals), KeyIs(EntryKey, k)) + (if last == k then 1 else 0);
    }
  }

  /** A measure of values, lifted to entries. */
  function OnValue<K, V>(f: V -> int): ((K, V)) -> int
  {
    (e: (K, V)) => f(e.1)
  }

  /** Sum of `f` over the stored values. */
  function SumValues<K(==, !new), V>(m: OMap<K, V>, f: V -> int): int
    requires Valid(m)
  {
    SumOf(Entries(m), OnValue(f))
  }

  /** Changing a key's value changes the sum over entries by the difference. */
  lemma {:induction false} SumAfterUpdate<K(!new), V>(keys: seq<K>, vals: map<K, V>, k: K, v: V, f: V -> int)
    requires Elements(keys) <= vals.Keys
    requires Distinct(keys) && k in Elements(keys)
    ensures SumOf(EntriesOf(keys, vals[k := v]), OnValue(f))
         == SumOf(EntriesOf(keys, vals), OnValue(f)) - f(vals[k]) + f(v)
  {
    var init := keys[..|keys| - 1];
    if keys[|keys| - 1] == k {
      UnaffectedEntries(init, vals, k, v);
    } else {
      SumAfterUpdate(init, vals, k, v, f);
    }
  }

  /** Updating a key outside `keys` does not change their entries. */
  lemma {:induction false} UnaffectedEntries<K(!new), V>(keys: seq<K>, vals: map<K, V>, k: K, v: V)
    requires Elements(keys) <= vals.Keys
    requires k !in Elements(keys)
    ensures EntriesOf(keys, vals[k := v]) == EntriesOf(keys, vals)
  {
    if keys != [] {
      UnaffectedEntries(keys[..|keys| - 1], vals, k, v);
    }
  }

  // --------------------------------------------------------------- grouping

  /** The keys that elements of `s` carry. */
  ghost function KeySet<T, K>(s: seq<T>, key: T -> K): (r: set<K>)
  {
    if s == [] then {} else KeySet(s[..|s| - 1], key) + {key(s[|s| - 1])}
  }

  lemma {:induction false} KeySetHas<T, K>(s: seq<T>, key: T -> K, j: int)
    requires 0 <= j < |s|
    ensures key(s[j]) in KeySet(s, key)
  {
    if j < |s| - 1 {
      KeySetHas(s[..|s| - 1], key, j);
    }
  }

  /** Index of the first element of `s` with key `k`. */
  ghost function FirstAt<T, K>(s: seq<T>, key: T -> K, k: K): (i: nat)
    requires k in KeySet(s, key)
    ensures i < |s| && key(s[i]) == k
    ensures forall j :: 0 <= j < i ==> key(s[j]) != k
  {
    var init := s[..|s| - 1];
    if k in KeySet(init, key) then
      var i := FirstAt(init, key, k);
      assert forall j :: 0 <= j <= i ==> s[j] == init[j];
      i
    else
      assert forall j :: 0 <= j < |init| ==> key(s[j]) != k by {
        forall j | 0 <= j < |init| ensures key(s[j]) != k {
          KeySetHas(init, key, j);
        }
      }
      |s| - 1
  }

  /**
   * The loop that, for each element, reads the entry of its key (or `zero`),
   * applies `step` and writes it back with `set`.
   */
  function Group<T, K(==, !new), V>(s: seq<T>, key: T -> K, zero: V, step: (V, T) -> V): OMap<K, V>
  {
    if s == [] then Empty() else
      var m := Group(s[..|s| - 1], key, zero, step);
      var x := s[|s| - 1];
      Set(m, key(x), step(Get(m, key(x)).GetOr(zero), x))
  }

  /** One more element: its key's entry is read (or `zero`), stepped and written back. */
  lemma GroupSnoc<T, K(!new), V>(s: seq<T>, x: T, key: T -> K, zero: V, step: (V, T) -> V)
    ensures var m := Group(s, key, zero, step);
      Group(s + [x], key, zero, step) == Set(m, key(x), step(Get(m, key(x)).GetOr(zero), x))
  {
    assert (s + [x])[..|s|] == s;
  }

  /** Grouping yields a well-formed map. */
  lemma {:induction false} GroupValid<T, K(!new), V>(s: seq<T>, key: T -> K, zero: V, step: (V, T) -> V)
    ensures Valid(Group(s, key, zero, step))
  {
    if s != [] {
      var m := Group(s[..|s| - 1], key, zero, step);
      var x := s[|s| - 1];
      GroupValid(s[..|s| - 1], key, zero, step);
      SetValid(m, key(x), step(Get(m, key(x)).GetOr(zero), x));
    }
  }

  /** The stored keys are exactly the keys the elements carry. */
  lemma {:induction false} GroupKeys<T, K(!new), V>(s: seq<T>, key: T -> K, zero: V, step: (V, T) -> V)
    ensures Group(s, key, zero, step).vals.Keys == KeySet(s, key)
  {
    if s != [] {
      GroupKeys(s[..|s| - 1], key, zero, step);
    }
  }

  /** Each key's value is the fold of `step` over exactly the elements with that key, in order. */
  lemma {:induction false} GroupValue<T, K(!new), V>(s: seq<T>, key: T -> K, zero: V, step: (V, T) -> V, k: K)
    requires k in KeySet(s, key)
    ensures k in Group(s, key, zero, step).vals
    ensures Group(s, key, zero, step).vals[k] == Fold(Filter(s, KeyIs(key, k)), zero, step)
  {
    var init := s[..|s| - 1];
    GroupKeys(init, key, zero, step);
    if k in KeySet(init, key) {
      GroupValue(init, key, zero, step, k);
    } else {
      NoneWithKey(init, key, k);
    }
  }

  /** No element has a key outside KeySet, so filtering by such a key leaves nothing. */
  lemma {:induction false} NoneWithKey<T, K(!new)>(s: seq<T>, key: T -> K, k: K)
    requires k !in KeySet(s, key)
    ensures Filter(s, KeyIs(key, k)) == []
  {
    if s != [] {
      NoneWithKey(s[..|s| - 1], key, k);
    }
  }

  /** Keys are ordered by where they first occur in `s`. */
  lemma {:induction false} GroupOrder<T, K(!new), V>(s: seq<T>, key: T -> K, zero: V, step: (V, T) -> V, a: int, b: int)
    requires 0 <= a < b < |Group(s, key, zero, step).keys|
    ensures var m := Group(s, key, zero, step);
      m.keys[a] in KeySet(s, key) && m.keys[b] in KeySet(s, key) &&
      FirstAt(s, key, m.keys[a]) < FirstAt(s, key, m.keys[b])
  {
    var init := s[..|s| - 1];
    var x := s[|s| - 1];
    var m0 := Group(init, key, zero, step);
    GroupKeys(init, key, zero, step);
    GroupValid(init, key, zero, step);
    ElementsAt(m0.keys, a);
    FirstAtOfPrefix(s, key, m0.keys[a]);
    if b < |m0.keys| {
      GroupOrder(init, key, zero, step, a, b);
      ElementsAt(m0.keys, b);
      FirstAtOfPrefix(s, key, m0.keys[b]);
    } else {
      FirstAtOfLast(s, key, key(x));
    }
  }

  lemma FirstAtOfPrefix<T, K>(s: seq<T>, key: T -> K, k: K)
    requires s != [] && k in KeySet(s[..|s| - 1], key)
    ensures k in KeySet(s, key)
    ensures FirstAt(s, key, k) == FirstAt(s[..|s| - 1], key, k) < |s| - 1
  {
  }

  lemma FirstAtOfLast<T, K>(s: seq<T>, key: T -> K, k: K)
    requires s != [] && k !in KeySet(s[..|s| - 1], key) && k == key(s[|s| - 1])
    ensures k in KeySet(s, key)
    ensures FirstAt(s, key, k) == |s| - 1
  {
  }

  /** The number of keys is the number of distinct keys among the elements. */
  lemma GroupSize<T, K(!new), V>(s: seq<T>, key: T -> K, zero: V, step: (V, T) -> V)
    ensures |Group(s, key, zero, step).keys| == |KeySet(s, key)|
  {
    var m := Group(s, key, zero, step);
    GroupKeys(s, key, zero, step);
    GroupValid(s, key, zero, step);
    DistinctSize(m.keys);
  }

  lemma {:induction false} DistinctSize<K>(s: seq<K>)
    requires Distinct(s)
    ensures |Elements(s)| == |s|
  {
    if s != [] {
      DistinctSize(s[..|s| - 1]);
    }
  }

  /**
   * When `step` adds `w(x)` to the measure `f` and `zero` measures 0, the
   * measures of all values add up to the sum of `w` over every element.
   */
  lemma {:induction false} GroupSum<T, K(!new), V>(s: seq<T>, key: T -> K, zero: V, step: (V, T) -> V, f: V -> int, w: T -> int)
    requires f(zero) == 0
    requires forall v, x :: f(step(v, x)) == f(v) + w(x)
    ensures Valid(Group(s, key, zero, step))
    ensures SumValues(Group(s, key, zero, step), f) == SumOf(s, w)
  {
    if s != [] {
      var init := s[..|s| - 1];
      var x := s[|s| - 1];
      var m := Group(init, key, zero, step);
      GroupSum(init, key, zero, step, f, w);
      GroupValid(s, key, zero, step);
      var v := step(Get(m, key(x)).GetOr(zero), x);
      if key(x) in m.vals {
        SumAfterUpdate(m.keys, m.vals, key(x), v, f);
      } else {
        UnaffectedEntries(m.keys, m.vals, key(x), v);
        assert (m.keys + [key(x)])[..|m.keys|] == m.keys;
        assert EntriesOf(m.keys + [key(x)], m.vals[key(x) := v])
            == EntriesOf(m.keys, m.vals) + [(key(x), v)];
        SumOfAppend(EntriesOf(m.keys, m.vals), [(key(x), v)], OnValue(f));
      }
    }
  }
}
