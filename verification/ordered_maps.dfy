/** Python dictionaries as the sequence of their items in insertion order.

    The program relies on dictionaries iterating in the order their keys were
    first inserted (dates in `calculate_works`, tasks within a date, groups in
    `report`), so a dictionary here is a `seq` of key/value pairs, not a `map`.
    `Get` with a default and `Put` together give `defaultdict` semantics:
    `d[k].append(x)` is `Put(d, k, Get(d, k, []) + [x])`, and assigning to a
    key that is already present keeps its position. */
module OrderedMaps {

  type Dict<K, V> = seq<(K, V)>

  /** The keys in iteration order. */
  function Keys<K, V>(m: Dict<K, V>): (ks: seq<K>)
    ensures |ks| == |m|
    ensures forall i :: 0 <= i < |m| ==> ks[i] == m[i].0
  {
    if m == [] then [] else [m[0].0] + Keys(m[1..])
  }

  /** No key occurs twice: what makes a sequence of pairs a dictionary. */
  predicate UniqueKeys<K(==), V>(m: Dict<K, V>) {
    forall i, j :: 0 <= i < j < |m| ==> m[i].0 != m[j].0
  }

  /** `m[k]` when `k` is present, `default` otherwise (a `defaultdict` read). */
  function Get<K(==), V>(m: Dict<K, V>, k: K, default: V): V {
    if m == [] then default
    else if m[0].0 == k then m[0].1
    else Get(m[1..], k, default)
  }

  /** `m[k] = v`: replaces the value of a present key in place, and appends a
      new key at the end of the iteration order. */
  function Put<K(==), V>(m: Dict<K, V>, k: K, v: V): Dict<K, V> {
    if m == [] then [(k, v)]
    else if m[0].0 == k then [(k, v)] + m[1..]
    else [m[0]] + Put(m[1..], k, v)
  }

  /** Assignment keeps the position of a present key and appends a new one. */
  lemma {:induction false} PutKeys<K, V>(m: Dict<K, V>, k: K, v: V)
    ensures Keys(Put(m, k, v)) == if k in Keys(m) then Keys(m) else Keys(m) + [k]
  {
    if m != [] && m[0].0 != k {
      PutKeys(m[1..], k, v);
      assert Keys([m[0]] + Put(m[1..], k, v)) == [m[0].0] + Keys(Put(m[1..], k, v));
    }
  }

  /** Assignment adds the new item and no other. */
  lemma {:induction false} PutItems<K, V>(m: Dict<K, V>, k: K, v: V)
    ensures forall p :: p in Put(m, k, v) ==> p in m || p == (k, v)
  {
    if m != [] && m[0].0 != k {
      PutItems(m[1..], k, v);
    }
  }

  /** Assignment keeps a dictionary a dictionary. */
  lemma PutUnique<K, V>(m: Dict<K, V>, k: K, v: V)
    requires UniqueKeys(m)
    ensures UniqueKeys(Put(m, k, v))
  {
    var r := Put(m, k, v);
    PutKeys(m, k, v);
    DistinctKeys(m);
    DistinctKeys(r);
    var ks := Keys(m);
    if k !in ks {
      assert Distinct(ks + [k]) by {
        forall i, j | 0 <= i < j < |ks| + 1
          ensures (ks + [k])[i] != (ks + [k])[j]
        {
          if j == |ks| {
            assert ks[i] in ks;
          }
        }
      }
    }
  }

  /** After `m[k] = v`, reading `k` gives `v` and every other key reads as
      before. */
  lemma {:induction false} PutGet<K, V>(m: Dict<K, V>, k: K, v: V, k': K, default: V)
    ensures Get(Put(m, k, v), k', default) == if k' == k then v else Get(m, k', default)
  {
    if m != [] && m[0].0 != k {
      PutGet(m[1..], k, v, k', default);
    }
  }

  /** In a dictionary, the value read for a key is the one stored beside it. */
  lemma {:induction false} GetAt<K, V>(m: Dict<K, V>, i: nat, default: V)
    requires UniqueKeys(m) && i < |m|
    ensures Get(m, m[i].0, default) == m[i].1
  {
    if i > 0 {
      GetAt(m[1..], i - 1, default);
    }
  }

  /** A present key reads as the value stored beside it. */
  lemma {:induction false} GetPresent<K, V>(m: Dict<K, V>, k: K, default: V)
    requires k in Keys(m)
    ensures (k, Get(m, k, default)) in m
  {
    if m[0].0 != k {
      GetPresent(m[1..], k, default);
    }
  }

  /** Reading a dictionary with one more item at the end. */
  lemma {:induction false} GetAppend<K, V>(m: Dict<K, V>, p: (K, V), k: K, default: V)
    ensures Get(m + [p], k, default) ==
            if k in Keys(m) then Get(m, k, default) else if k == p.0 then p.1 else default
  {
    if m != [] {
      assert (m + [p])[1..] == m[1..] + [p];
      GetAppend(m[1..], p, k, default);
    }
  }

  /** A key that is absent reads as the default. */
  lemma {:induction false} GetAbsent<K, V>(m: Dict<K, V>, k: K, default: V)
    requires k !in Keys(m)
    ensures Get(m, k, default) == default
  {
    if m != [] {
      GetAbsent(m[1..], k, default);
    }
  }

  /** Appending an item extends the keys by its key. */
  lemma KeysAppend<K, V>(m: Dict<K, V>, p: (K, V))
    ensures Keys(m + [p]) == Keys(m) + [p.0]
  {
  }

  /** The length of a list, as a measure for `SumBy`. */
  function Length<T>(xs: seq<T>): int {
    |xs|
  }

  /** Sum of an integer measure over the values of a dictionary. */
  function SumBy<K, V>(m: Dict<K, V>, f: V -> int): int {
    if m == [] then 0 else f(m[0].1) + SumBy(m[1..], f)
  }

  /** Overwriting a key changes the sum by the difference of the two values
      (a missing key counts with the default's measure, taken to be zero). */
  lemma {:induction false} SumByPut<K, V>(m: Dict<K, V>, k: K, v: V, default: V, f: V -> int)
    requires f(default) == 0
    ensures SumBy(Put(m, k, v), f) == SumBy(m, f) - f(Get(m, k, default)) + f(v)
  {
    if m != [] && m[0].0 != k {
      SumByPut(m[1..], k, v, default, f);
      assert Put(m, k, v) == [m[0]] + Put(m[1..], k, v);
    }
  }

  /** The sum over a dictionary with one more item at the end. */
  lemma {:induction false} SumByAppend<K, V>(m: Dict<K, V>, p: (K, V), f: V -> int)
    ensures SumBy(m + [p], f) == SumBy(m, f) + f(p.1)
  {
    if m != [] {
      assert (m + [p])[1..] == m[1..] + [p];
      SumByAppend(m[1..], p, f);
    }
  }

  /** The elements of `xs` without repetitions, each where it first occurs. */
  function Dedup<T(==)>(xs: seq<T>): seq<T> {
    if xs == [] then []
    else
      var r := Dedup(xs[..|xs| - 1]);
      var x := xs[|xs| - 1];
      if x in r then r else r + [x]
  }

  /** `Dedup` keeps every element, adds none, and repeats none. */
  lemma {:induction false} DedupItems<T>(xs: seq<T>)
    ensures forall x :: x in Dedup(xs) <==> x in xs
    ensures Distinct(Dedup(xs))
  {
    if xs != [] {
      var prefix := xs[..|xs| - 1];
      DedupItems(prefix);
      assert xs == prefix + [xs[|xs| - 1]];
    }
  }

  /** `k` copies of `x`. */
  function Repeat<T>(x: T, k: nat): seq<T> {
    if k == 0 then [] else Repeat(x, k - 1) + [x]
  }

  lemma {:induction false} RepeatItems<T>(x: T, k: nat)
    ensures |Repeat(x, k)| == k && forall i :: 0 <= i < k ==> Repeat(x, k)[i] == x
  {
    if k > 0 {
      RepeatItems(x, k - 1);
    }
  }

  /** A new element repeated at the end adds it once to the deduplication. */
  lemma {:induction false} DedupRun<T>(xs: seq<T>, x: T, k: nat)
    requires x !in xs && k >= 1
    ensures Dedup(xs + Repeat(x, k)) == Dedup(xs) + [x]
  {
    DedupItems(xs);
    if k > 1 {
      DedupRun(xs, x, k - 1);
      assert xs + Repeat(x, k) == (xs + Repeat(x, k - 1)) + [x];
    } else {
      assert xs + Repeat(x, k) == xs + [x];
    }
  }

  predicate Distinct<T(==)>(xs: seq<T>) {
    forall i, j :: 0 <= i < j < |xs| ==> xs[i] != xs[j]
  }

  /** Keys in iteration order are distinct exactly when the keys are unique. */
  lemma DistinctKeys<K, V>(m: Dict<K, V>)
    ensures Distinct(Keys(m)) <==> UniqueKeys(m)
  {
  }
}
