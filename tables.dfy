/** Counting tables: the `collections.defaultdict(int)` values of language_detector.py. */
module Tables {

  datatype Option<T> = None | Some(value: T)

  /** A Python `defaultdict(int)`: the keys in insertion order (the order in which a
      Python dict yields its items) together with the map from key to count. */
  datatype CountTable<K(==,!new)> = CountTable(order: seq<K>, count: map<K, int>) {

    /** The order lists every key exactly once. */
    ghost predicate Valid() {
      && (forall i, j :: 0 <= i < j < |order| ==> order[i] != order[j])
      && (forall k :: k in count <==> k in order)
    }

    /** The value `d[k]` reads: the stored count, or 0 for a missing key. */
    function Get(k: K): int {
      if k in count then count[k] else 0
    }

    /** `d[k] += 1`: a missing key is inserted at the end of the order with count 1. */
    function Increment(k: K): (t: CountTable<K>)
      ensures Valid() ==> t.Valid()
      ensures t.Get(k) == Get(k) + 1
      ensures forall j :: j != k ==> t.Get(j) == Get(j)
      ensures t.count.Keys == count.Keys + {k}
      ensures k in count ==> t.order == order
      ensures k !in count ==> t.order == order + [k]
    {
      if k in count then CountTable(order, count[k := count[k] + 1])
      else CountTable(order + [k], count[k := 1])
    }

    /** `d[k]` used as a value: a missing key is inserted with count 0, and no key
        reads differently afterwards. */
    function Touch(k: K): (t: CountTable<K>)
      ensures Valid() ==> t.Valid()
      ensures forall j :: t.Get(j) == Get(j)
      ensures forall j :: j in t.count <==> j in count || j == k
      ensures k in count ==> t == this
      ensures k !in count ==> t.order == order + [k]
    {
      if k in count then this else CountTable(order + [k], count[k := 0])
    }
  }

  /** The keys after `d[k]` are the keys before and `k`. */
  lemma TouchKeys<K(!new)>(t: CountTable<K>, k: K)
    ensures t.Touch(k).count.Keys == t.count.Keys + {k}
  {
  }

  /** Every count in the table is non-negative. */
  ghost predicate NonNegative<K(!new)>(t: CountTable<K>) {
    forall k :: k in t.count ==> t.count[k] >= 0
  }

  /** The distinct elements of `s` in order of first occurrence. */
  function FirstOccurrences<K(==,!new)>(s: seq<K>): (r: seq<K>)
    ensures forall i, j :: 0 <= i < j < |r| ==> r[i] != r[j]
    ensures forall k :: k in r <==> k in s
  {
    if s == [] then []
    else
      var d := FirstOccurrences(s[..|s| - 1]);
      assert forall k :: k in s <==> k in s[..|s| - 1] || k == s[|s| - 1] by {
        assert s == s[..|s| - 1] + [s[|s| - 1]];
      }
      if s[|s| - 1] in d then d else d + [s[|s| - 1]]
  }

  /** The table that counting the elements of `s` one after another produces, stated
      without the loop: each element of `s` maps to its number of occurrences, and the
      keys are ordered by first occurrence. */
  function TableOf<K(==,!new)>(s: seq<K>): CountTable<K> {
    CountTable(FirstOccurrences(s), map k | k in s :: multiset(s)[k])
  }

  lemma TableOfIsHistogram<K(!new)>(s: seq<K>)
    ensures TableOf(s).Valid() && NonNegative(TableOf(s))
    ensures forall k :: TableOf(s).Get(k) == multiset(s)[k]
    ensures forall k :: k in TableOf(s).count <==> k in s
    ensures forall k :: k in TableOf(s).count ==> TableOf(s).count[k] >= 1
  {
  }

  /** Counting one more element is one more `Increment`. */
  lemma TableOfAppend<K(!new)>(s: seq<K>, k: K)
    ensures TableOf(s + [k]) == TableOf(s).Increment(k)
  {
    FirstOccurrencesAppend(s, k);
    HistogramAppend(s, k);
  }

  lemma FirstOccurrencesAppend<K(!new)>(s: seq<K>, k: K)
    ensures FirstOccurrences(s + [k]) == if k in s then FirstOccurrences(s) else FirstOccurrences(s) + [k]
  {
    var s' := s + [k];
    assert s'[..|s'| - 1] == s && s'[|s'| - 1] == k;
  }

  lemma HistogramAppend<K(!new)>(s: seq<K>, k: K)
    ensures TableOf(s + [k]).count == TableOf(s).count[k := TableOf(s).Get(k) + 1]
  {
    var c, d := TableOf(s + [k]).count, TableOf(s).count[k := TableOf(s).Get(k) + 1];
    forall j ensures j in c <==> j in d {
      assert j in s + [k] <==> j in s || j == k;
    }
    forall j | j in c ensures c[j] == d[j] {
      MultisetAppendAt(s, k, j);
    }
  }

  lemma MultisetAppendAt<K>(s: seq<K>, k: K, j: K)
    ensures multiset(s + [k])[j] == multiset(s)[j] + (if j == k then 1 else 0)
  {
    assert multiset(s + [k]) == multiset(s) + multiset{k};
  }

  /** The number of elements of `s` on which `keep` holds. */
  function CountWhere<K(==,!new)>(s: seq<K>, keep: K -> bool): nat {
    if s == [] then 0
    else CountWhere(s[..|s| - 1], keep) + (if keep(s[|s| - 1]) then 1 else 0)
  }

  lemma {:induction false} CountWhereAppend<K(!new)>(a: seq<K>, b: seq<K>, keep: K -> bool)
    ensures CountWhere(a + b, keep) == CountWhere(a, keep) + CountWhere(b, keep)
    decreases |b|
  {
    if b == [] {
      assert a + b == a;
    } else {
      var b' := b[..|b| - 1];
      assert (a + b)[..|a + b| - 1] == a + b';
      CountWhereAppend(a, b', keep);
    }
  }

  /** The sum of the counts of the listed keys on which `keep` holds. */
  ghost function SumOver<K(!new)>(keys: seq<K>, t: CountTable<K>, keep: K -> bool): int {
    if keys == [] then 0
    else SumOver(keys[..|keys| - 1], t, keep) + (if keep(keys[|keys| - 1]) then t.Get(keys[|keys| - 1]) else 0)
  }

  /** The sum of all counts of keys on which `keep` holds (`sum(d.values())` when
      `keep` holds everywhere). */
  ghost function Total<K(!new)>(t: CountTable<K>, keep: K -> bool): int {
    SumOver(t.order, t, keep)
  }

  /** Everything. */
  function Any<K(==,!new)>(): K -> bool {
    _ => true
  }

  /** Changing the count of one key by one changes a sum over distinct keys by one
      exactly when that key is listed and kept. */
  lemma {:induction false} SumOverBump<K(!new)>(keys: seq<K>, t: CountTable<K>, t': CountTable<K>, k: K, keep: K -> bool)
    requires forall i, j :: 0 <= i < j < |keys| ==> keys[i] != keys[j]
    requires t'.Get(k) == t.Get(k) + 1
    requires forall j :: j != k ==> t'.Get(j) == t.Get(j)
    ensures SumOver(keys, t', keep) == SumOver(keys, t, keep) + (if k in keys && keep(k) then 1 else 0)
    decreases |keys|
  {
    if keys != [] {
      var init := keys[..|keys| - 1];
      assert keys == init + [keys[|keys| - 1]];
      SumOverBump(init, t, t', k, keep);
    }
  }

  lemma IncrementTotal<K(!new)>(t: CountTable<K>, k: K, keep: K -> bool)
    requires t.Valid()
    ensures Total(t.Increment(k), keep) == Total(t, keep) + (if keep(k) then 1 else 0)
  {
    var u := t.Increment(k);
    if k in t.count {
      SumOverBump(t.order, t, u, k, keep);
    } else {
      SumOverBump(t.order, t, u, k, keep);
      assert u.order[..|u.order| - 1] == t.order;
    }
  }

  /** The kept part of the total of a counted sequence is the number of its kept
      elements; with `Any()` the counts add up to the length of the sequence. */
  lemma {:induction false} TotalOfTableOf<K(!new)>(s: seq<K>, keep: K -> bool)
    ensures Total(TableOf(s), keep) == CountWhere(s, keep)
    decreases |s|
  {
    if s != [] {
      var init := s[..|s| - 1];
      assert s == init + [s[|s| - 1]];
      TotalOfTableOf(init, keep);
      TableOfAppend(init, s[|s| - 1]);
      TableOfIsHistogram(init);
      IncrementTotal(TableOf(init), s[|s| - 1], keep);
    }
  }

  lemma {:induction false} CountAny<K(!new)>(s: seq<K>)
    ensures CountWhere(s, Any()) == |s|
    decreases |s|
  {
    if s != [] {
      CountAny(s[..|s| - 1]);
    }
  }
}
