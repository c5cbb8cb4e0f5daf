/**
 * Sequence operations that the system takes from its languages' libraries:
 * filtering, first-occurrence deduplication under a key (a Python seen-set pass,
 * LINQ `Distinct`, a `HashSet` with a comparer) and LINQ's stable `OrderByDescending`.
 */
module Collections {

  /** Concatenation is associative. */
  lemma AppendAssoc<T>(x: seq<T>, y: seq<T>, z: seq<T>)
    ensures x + (y + z) == (x + y) + z
  {
  }

  /** The elements of `xs` that satisfy `p`, in order (LINQ `Where`). */
  function Filter<T>(xs: seq<T>, p: T -> bool): (r: seq<T>)
    ensures |r| <= |xs|
    decreases |xs|
  {
    if xs == [] then [] else if p(xs[0]) then [xs[0]] + Filter(xs[1..], p) else Filter(xs[1..], p)
  }

  /** What is kept comes from `xs` and satisfies the predicate; everything in `xs` that satisfies it is kept. */
  lemma {:induction false} FilterMembers<T>(xs: seq<T>, p: T -> bool)
    ensures forall i :: 0 <= i < |Filter(xs, p)| ==> Filter(xs, p)[i] in xs && p(Filter(xs, p)[i])
    ensures forall i :: 0 <= i < |xs| && p(xs[i]) ==> xs[i] in Filter(xs, p)
    decreases |xs|
  {
    if xs != [] {
      var tail := xs[1..];
      FilterMembers(tail, p);
      var r := Filter(xs, p);
      forall i | 0 <= i < |r| ensures r[i] in xs && p(r[i]) {
        if !(p(xs[0]) && i == 0) {
          var j := if p(xs[0]) then i - 1 else i;
          assert r[i] == Filter(tail, p)[j];
          assert Filter(tail, p)[j] in tail;
        }
      }
      forall i | 0 <= i < |xs| && p(xs[i]) ensures xs[i] in r {
        if i > 0 {
          assert xs[i] == tail[i - 1];
          assert tail[i - 1] in Filter(tail, p);
        }
      }
    }
  }

  lemma {:induction false} FilterAppend<T>(a: seq<T>, b: seq<T>, p: T -> bool)
    ensures Filter(a + b, p) == Filter(a, p) + Filter(b, p)
    decreases |a|
  {
    if a == [] {
      assert a + b == b;
    } else {
      assert (a + b)[1..] == a[1..] + b;
      FilterAppend(a[1..], b, p);
    }
  }

  lemma FilterSingle<T>(x: T, p: T -> bool)
    ensures Filter([x], p) == if p(x) then [x] else []
  {
    assert [x][1..] == [];
  }

  /** Removing an element that fails the predicate leaves the filtered sequence as it was. */
  lemma FilterRemoveAt<T>(xs: seq<T>, k: int, p: T -> bool)
    requires 0 <= k < |xs| && !p(xs[k])
    ensures Filter(xs[..k] + xs[k + 1..], p) == Filter(xs, p)
  {
    SplitAt(xs, k);
    FilterDropMiddle(xs[..k], xs[k], xs[k + 1..], p);
  }

  lemma SplitAt<T>(xs: seq<T>, k: int)
    requires 0 <= k < |xs|
    ensures xs == xs[..k] + ([xs[k]] + xs[k + 1..])
  {
  }

  lemma FilterDropMiddle<T>(a: seq<T>, x: T, b: seq<T>, p: T -> bool)
    requires !p(x)
    ensures Filter(a + ([x] + b), p) == Filter(a + b, p)
  {
    FilterSkip(x, b, p);
    FilterAppend(a, [x] + b, p);
    FilterAppend(a, b, p);
  }

  lemma FilterSkip<T>(x: T, b: seq<T>, p: T -> bool)
    requires !p(x)
    ensures Filter([x] + b, p) == Filter(b, p)
  {
    assert ([x] + b)[1..] == b;
  }

  /** Replacing an element that fails the predicate by another that fails it leaves the filtered sequence as it was. */
  lemma FilterUpdate<T>(xs: seq<T>, k: int, v: T, p: T -> bool)
    requires 0 <= k < |xs| && !p(xs[k]) && !p(v)
    ensures Filter(xs[k := v], p) == Filter(xs, p)
  {
    var ys := xs[k := v];
    assert ys == xs[..k] + ([v] + xs[k + 1..]);
    assert ys[..k] + ys[k + 1..] == xs[..k] + xs[k + 1..];
    FilterRemoveAt(ys, k, p);
    FilterRemoveAt(xs, k, p);
  }

  /** Appending an element that fails the predicate leaves the filtered sequence as it was. */
  lemma FilterSnocFails<T>(xs: seq<T>, x: T, p: T -> bool)
    requires !p(x)
    ensures Filter(xs + [x], p) == Filter(xs, p)
  {
    FilterAppend(xs, [x], p);
    FilterSingle(x, p);
  }

  /** No element satisfies the predicate: nothing is kept. */
  lemma {:induction false} FilterNone<T>(xs: seq<T>, p: T -> bool)
    requires forall i :: 0 <= i < |xs| ==> !p(xs[i])
    ensures Filter(xs, p) == []
    decreases |xs|
  {
    if xs != [] {
      FilterNone(xs[1..], p);
    }
  }

  /** Every element satisfies the predicate: everything is kept. */
  lemma {:induction false} FilterAll<T>(xs: seq<T>, p: T -> bool)
    requires forall i :: 0 <= i < |xs| ==> p(xs[i])
    ensures Filter(xs, p) == xs
    decreases |xs|
  {
    if xs != [] {
      FilterAll(xs[1..], p);
    }
  }

  function Not<T>(p: T -> bool): T -> bool { x => !p(x) }

  /**
   * Deleting the elements that satisfy `p` and appending new ones that all satisfy it:
   * the elements satisfying `p` are now exactly the new ones, and the others are as before.
   */
  lemma FilterReplaced<T>(xs: seq<T>, added: seq<T>, p: T -> bool)
    requires forall i :: 0 <= i < |added| ==> p(added[i])
    ensures Filter(Filter(xs, Not(p)) + added, p) == added
    ensures Filter(Filter(xs, Not(p)) + added, Not(p)) == Filter(xs, Not(p))
  {
    var kept := Filter(xs, Not(p));
    FilterMembers(xs, Not(p));
    FilterAppend(kept, added, p);
    FilterAppend(kept, added, Not(p));
    FilterNone(kept, p);
    FilterAll(added, p);
    FilterAll(kept, Not(p));
    FilterNone(added, Not(p));
    assert [] + added == added && kept + [] == kept;
  }

  /** The first `n` elements (LINQ `Take`). */
  function Take<T>(xs: seq<T>, n: int): (r: seq<T>)
    ensures |r| <= |xs| && (n >= 0 ==> |r| <= n)
    ensures r == xs[..|r|]
    ensures n >= |xs| ==> r == xs
    ensures 0 <= n < |xs| ==> |r| == n
  {
    if n <= 0 then [] else if n >= |xs| then xs else xs[..n]
  }

  /** The set of keys of the elements of `xs`. */
  function KeysOf<T, K(==)>(xs: seq<T>, key: T -> K): set<K>
  {
    set i | 0 <= i < |xs| :: key(xs[i])
  }

  lemma KeysOfSnoc<T, K>(xs: seq<T>, x: T, key: T -> K)
    ensures KeysOf(xs + [x], key) == KeysOf(xs, key) + {key(x)}
  {
    var ys := xs + [x];
    assert forall i :: 0 <= i < |xs| ==> ys[i] == xs[i];
    assert ys[|xs|] == x;
  }

  /** No two elements of `xs` share a key. */
  predicate NoDuplicateKeys<T, K(==)>(xs: seq<T>, key: T -> K)
  {
    forall i, j :: 0 <= i < j < |xs| ==> key(xs[i]) != key(xs[j])
  }

  /** The position of the first element of `xs` whose key is `k`. */
  function FirstIndex<T, K(==)>(xs: seq<T>, key: T -> K, k: K): (i: nat)
    requires k in KeysOf(xs, key)
    ensures i < |xs| && key(xs[i]) == k
    ensures forall j :: 0 <= j < i ==> key(xs[j]) != k
    decreases |xs|
  {
    if key(xs[0]) == k then 0
    else
      assert k in KeysOf(xs[1..], key) by {
        var i :| 0 <= i < |xs| && key(xs[i]) == k;
        assert xs[1..][i - 1] == xs[i];
      }
      1 + FirstIndex(xs[1..], key, k)
  }

  lemma {:induction false} FirstIndexSnoc<T, K>(xs: seq<T>, x: T, key: T -> K, k: K)
    requires k in KeysOf(xs, key)
    ensures k in KeysOf(xs + [x], key)
    ensures FirstIndex(xs + [x], key, k) == FirstIndex(xs, key, k)
  {
    KeysOfSnoc(xs, x, key);
    var i := FirstIndex(xs, key, k);
    var ys := xs + [x];
    assert ys[i] == xs[i];
    assert forall m :: 0 <= m < |xs| ==> ys[m] == xs[m];
  }

  /**
   * Keeps the first element of each key, in order: a left-to-right pass that
   * skips an element whose key it has already seen.
   */
  function DistinctBy<T, K(==)>(xs: seq<T>, key: T -> K): (r: seq<T>)
    decreases |xs|
  {
    if xs == [] then []
    else
      var r := DistinctBy(xs[..|xs| - 1], key);
      if key(xs[|xs| - 1]) in KeysOf(r, key) then r else r + [xs[|xs| - 1]]
  }

  lemma {:induction false} DistinctByKeys<T, K>(xs: seq<T>, key: T -> K)
    ensures KeysOf(DistinctBy(xs, key), key) == KeysOf(xs, key)
    decreases |xs|
  {
    if xs != [] {
      var init, x := xs[..|xs| - 1], xs[|xs| - 1];
      assert xs == init + [x];
      DistinctByKeys(init, key);
      KeysOfSnoc(init, x, key);
      KeysOfSnoc(DistinctBy(init, key), x, key);
    }
  }

  lemma {:induction false} DistinctByNoDuplicates<T, K>(xs: seq<T>, key: T -> K)
    ensures NoDuplicateKeys(DistinctBy(xs, key), key)
    decreases |xs|
  {
    if xs != [] {
      var init, x := xs[..|xs| - 1], xs[|xs| - 1];
      DistinctByNoDuplicates(init, key);
      var r := DistinctBy(init, key);
      if key(x) !in KeysOf(r, key) {
        var r' := r + [x];
        forall i, j | 0 <= i < j < |r'| ensures key(r'[i]) != key(r'[j]) {
          if j == |r| {
            assert r'[i] == r[i];
          } else {
            assert r'[i] == r[i] && r'[j] == r[j];
          }
        }
      }
    }
  }

  /** Each element of `r` is the first element of `xs` with its key. */
  ghost predicate FirstOfKeys<T, K>(xs: seq<T>, key: T -> K, r: seq<T>) {
    forall k :: 0 <= k < |r| ==> key(r[k]) in KeysOf(xs, key) && r[k] == xs[FirstIndex(xs, key, key(r[k]))]
  }

  /** The elements of `r` come in the order in which their keys first occur in `xs`. */
  ghost predicate InFirstOccurrenceOrder<T, K>(xs: seq<T>, key: T -> K, r: seq<T>) {
    forall k, l :: 0 <= k < l < |r| ==>
      key(r[k]) in KeysOf(xs, key) && key(r[l]) in KeysOf(xs, key) &&
      FirstIndex(xs, key, key(r[k])) < FirstIndex(xs, key, key(r[l]))
  }

  /** Without duplicate keys, equal keys mean the same position. */
  lemma SameKeySameIndex<T, K>(xs: seq<T>, key: T -> K, k: int, l: int)
    requires NoDuplicateKeys(xs, key) && 0 <= k < |xs| && 0 <= l < |xs| && key(xs[k]) == key(xs[l])
    ensures k == l
  {
  }

  /**
   * `DistinctBy` keeps, for each key, the first element with that key, in the
   * order in which the keys first occur.
   */
  lemma DistinctByFirstOccurrences<T, K>(xs: seq<T>, key: T -> K)
    ensures KeysOf(DistinctBy(xs, key), key) == KeysOf(xs, key)
    ensures FirstOfKeys(xs, key, DistinctBy(xs, key))
    ensures InFirstOccurrenceOrder(xs, key, DistinctBy(xs, key))
  {
    DistinctByKeys(xs, key);
    DistinctByFirstElements(xs, key);
    DistinctByFirstOrder(xs, key);
  }

  /** Appending an element does not move the first occurrence of the keys already kept. */
  lemma DistinctByStable<T, K>(init: seq<T>, x: T, key: T -> K)
    ensures var r := DistinctBy(init, key);
      forall k :: 0 <= k < |r| ==> (key(r[k]) in KeysOf(init, key) &&
        key(r[k]) in KeysOf(init + [x], key) &&
        FirstIndex(init + [x], key, key(r[k])) == FirstIndex(init, key, key(r[k])))
  {
    DistinctByKeys(init, key);
    var r := DistinctBy(init, key);
    forall k | 0 <= k < |r| ensures key(r[k]) in KeysOf(init, key) &&
      key(r[k]) in KeysOf(init + [x], key) &&
      FirstIndex(init + [x], key, key(r[k])) == FirstIndex(init, key, key(r[k]))
    {
      assert key(r[k]) in KeysOf(r, key);
      FirstIndexSnoc(init, x, key, key(r[k]));
    }
  }

  /** An element with a new key is its key's first occurrence. */
  lemma FirstIndexOfNew<T, K>(init: seq<T>, x: T, key: T -> K)
    requires key(x) !in KeysOf(init, key)
    ensures key(x) in KeysOf(init + [x], key) && FirstIndex(init + [x], key, key(x)) == |init|
  {
    var xs := init + [x];
    assert xs[|init|] == x;
    forall m | 0 <= m < |init| ensures key(xs[m]) != key(x) {
      assert xs[m] == init[m];
      assert key(init[m]) in KeysOf(init, key);
    }
  }

  lemma {:induction false} DistinctByFirstElements<T, K>(xs: seq<T>, key: T -> K)
    ensures FirstOfKeys(xs, key, DistinctBy(xs, key))
    decreases |xs|
  {
    if xs != [] {
      var init, x := xs[..|xs| - 1], xs[|xs| - 1];
      assert xs == init + [x];
      DistinctByFirstElements(init, key);
      DistinctByStable(init, x, key);
      DistinctByKeys(init, key);
      var r := DistinctBy(init, key);
      var r' := DistinctBy(xs, key);
      if key(x) !in KeysOf(r, key) {
        FirstIndexOfNew(init, x, key);
        assert r' == r + [x];
      } else {
        assert r' == r;
      }
      forall k | 0 <= k < |r'| ensures key(r'[k]) in KeysOf(xs, key) && r'[k] == xs[FirstIndex(xs, key, key(r'[k]))] {
        if k < |r| {
          assert r'[k] == r[k];
          var i := FirstIndex(init, key, key(r[k]));
          assert xs[i] == init[i];
        }
      }
    }
  }

  lemma {:induction false} DistinctByFirstOrder<T, K>(xs: seq<T>, key: T -> K)
    ensures InFirstOccurrenceOrder(xs, key, DistinctBy(xs, key))
    decreases |xs|
  {
    if xs != [] {
      var init, x := xs[..|xs| - 1], xs[|xs| - 1];
      assert xs == init + [x];
      DistinctByFirstOrder(init, key);
      DistinctByStable(init, x, key);
      DistinctByKeys(init, key);
      var r := DistinctBy(init, key);
      var r' := DistinctBy(xs, key);
      if key(x) !in KeysOf(r, key) {
        FirstIndexOfNew(init, x, key);
        assert r' == r + [x];
        forall k, l | 0 <= k < l < |r'| ensures key(r'[k]) in KeysOf(xs, key) && key(r'[l]) in KeysOf(xs, key) &&
          FirstIndex(xs, key, key(r'[k])) < FirstIndex(xs, key, key(r'[l]))
        {
          assert r'[k] == r[k];
          if l < |r| {
            assert r'[l] == r[l];
          }
        }
      } else {
        assert r' == r;
      }
    }
  }

  /** A sequence whose keys are already distinct is left unchanged. */
  lemma {:induction false} DistinctByOfDistinct<T, K>(xs: seq<T>, key: T -> K)
    requires NoDuplicateKeys(xs, key)
    ensures DistinctBy(xs, key) == xs
    decreases |xs|
  {
    if xs != [] {
      var init, x := xs[..|xs| - 1], xs[|xs| - 1];
      assert NoDuplicateKeys(init, key) by {
        forall i, j | 0 <= i < j < |init| ensures key(init[i]) != key(init[j]) {
          assert init[i] == xs[i] && init[j] == xs[j];
        }
      }
      DistinctByOfDistinct(init, key);
      assert key(x) !in KeysOf(init, key) by {
        forall i | 0 <= i < |init| ensures key(init[i]) != key(x) {
          assert xs[i] == init[i];
        }
      }
      assert xs == init + [x];
    }
  }

  /** Deduplication empties only the empty sequence. */
  lemma DistinctByEmpty<T, K>(xs: seq<T>, key: T -> K)
    ensures DistinctBy(xs, key) == [] <==> xs == []
  {
    DistinctByKeys(xs, key);
    if xs != [] {
      assert key(xs[0]) in KeysOf(xs, key);
    }
  }

  /** Deduplicating twice is deduplicating once. */
  lemma DistinctByIdempotent<T, K>(xs: seq<T>, key: T -> K)
    ensures DistinctBy(DistinctBy(xs, key), key) == DistinctBy(xs, key)
  {
    DistinctByNoDuplicates(xs, key);
    DistinctByOfDistinct(DistinctBy(xs, key), key);
  }

  /** Non-increasing under `key`. */
  predicate SortedDescBy<T>(xs: seq<T>, key: T -> real)
  {
    forall i, j :: 0 <= i < j < |xs| ==> key(xs[i]) >= key(xs[j])
  }

  /** Puts `x` after every element whose key is at least `key(x)`. */
  function InsertDescBy<T>(x: T, xs: seq<T>, key: T -> real): (r: seq<T>)
    ensures |r| == |xs| + 1
    decreases |xs|
  {
    if xs == [] then [x]
    else if key(xs[0]) < key(x) then [x] + xs
    else [xs[0]] + InsertDescBy(x, xs[1..], key)
  }

  lemma {:induction false} InsertDescByMultiset<T>(x: T, xs: seq<T>, key: T -> real)
    ensures multiset(InsertDescBy(x, xs, key)) == multiset(xs) + multiset{x}
    decreases |xs|
  {
    if xs != [] && key(xs[0]) >= key(x) {
      InsertDescByMultiset(x, xs[1..], key);
      assert xs == [xs[0]] + xs[1..];
    }
  }

  /** Every element of the insertion is `x` or an element of `xs`. */
  lemma {:induction false} InsertDescByElements<T>(x: T, xs: seq<T>, key: T -> real)
    ensures forall i :: 0 <= i < |InsertDescBy(x, xs, key)| ==>
      InsertDescBy(x, xs, key)[i] == x || InsertDescBy(x, xs, key)[i] in xs
    decreases |xs|
  {
    if xs != [] && key(xs[0]) >= key(x) {
      InsertDescByElements(x, xs[1..], key);
    }
  }

  lemma {:induction false} InsertDescBySorted<T>(x: T, xs: seq<T>, key: T -> real)
    requires SortedDescBy(xs, key)
    ensures SortedDescBy(InsertDescBy(x, xs, key), key)
    decreases |xs|
  {
    if xs != [] && key(xs[0]) >= key(x) {
      InsertDescBySorted(x, xs[1..], key);
      InsertDescByElements(x, xs[1..], key);
      var rest := InsertDescBy(x, xs[1..], key);
      forall i | 0 <= i < |rest| ensures key(rest[i]) <= key(xs[0]) {
        if rest[i] != x {
          var m :| 0 <= m < |xs[1..]| && xs[1..][m] == rest[i];
          assert xs[m + 1] == rest[i];
        }
      }
    }
  }

  /** LINQ's stable `OrderByDescending(key)`: each element is inserted after the earlier ones with a key at least its own. */
  function SortDescBy<T>(xs: seq<T>, key: T -> real): (r: seq<T>)
    ensures |r| == |xs|
    decreases |xs|
  {
    if xs == [] then [] else InsertDescBy(xs[|xs| - 1], SortDescBy(xs[..|xs| - 1], key), key)
  }

  /** The sort yields a non-increasing permutation of its input. */
  lemma {:induction false} SortDescBySortedPermutation<T>(xs: seq<T>, key: T -> real)
    ensures SortedDescBy(SortDescBy(xs, key), key)
    ensures multiset(SortDescBy(xs, key)) == multiset(xs)
    decreases |xs|
  {
    if xs != [] {
      var init := xs[..|xs| - 1];
      SortDescBySortedPermutation(init, key);
      InsertDescBySorted(xs[|xs| - 1], SortDescBy(init, key), key);
      InsertDescByMultiset(xs[|xs| - 1], SortDescBy(init, key), key);
      assert xs == init + [xs[|xs| - 1]];
    }
  }

  /**
   * An element left out of the first `n` of the sort is outranked: the head is
   * full and every element in it has a key at least the element's.
   */
  lemma TakeOfSortedTop<T>(xs: seq<T>, key: T -> real, n: int, x: T)
    requires n >= 0 && x in xs
    ensures var r := Take(SortDescBy(xs, key), n);
      x in r || (|r| == n && forall k :: 0 <= k < |r| ==> key(r[k]) >= key(x))
  {
    var sorted := SortDescBy(xs, key);
    var r := Take(sorted, n);
    SortDescBySortedPermutation(xs, key);
    assert x in multiset(sorted);
    var m :| 0 <= m < |sorted| && sorted[m] == x;
    if m < |r| {
      assert r[m] == x;
    } else {
      forall k | 0 <= k < |r| ensures key(r[k]) >= key(x) {
        assert r[k] == sorted[k];
      }
    }
  }
}
