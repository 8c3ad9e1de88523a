/** Stable sorting by a string key, as `Array.prototype.sort` with a key comparison does it. */
module Sorting {
  import opened Text

  /** `a` does not sort after `b`. */
  predicate LexLeq(a: string, b: string) {
    !LexLess(b, a)
  }

  lemma LexLeqTransitive(a: string, b: string, c: string)
    requires LexLeq(a, b) && LexLeq(b, c)
    ensures LexLeq(a, c)
  {
    if a != b && b != c {
      LexLessTotal(a, b);
      LexLessTotal(b, c);
      LexLessTransitive(a, b, c);
      LexLessAsymmetric(a, c);
    }
  }

  lemma LexLeqTotal(a: string, b: string)
    ensures LexLeq(a, b) || LexLeq(b, a)
  {
    if LexLess(a, b) { LexLessAsymmetric(a, b); }
  }

  /** Every element's key sorts no later than the keys after it. */
  predicate SortedBy<T>(xs: seq<T>, key: T -> string) {
    forall i, j :: 0 <= i < j < |xs| ==> LexLeq(key(xs[i]), key(xs[j]))
  }

  /** Puts `x` before the first element whose key does not sort before `x`'s. */
  function Insert<T>(x: T, xs: seq<T>, key: T -> string): (r: seq<T>)
    ensures |r| == |xs| + 1
    decreases |xs|
  {
    if |xs| == 0 then [x]
    else if !LexLess(key(xs[0]), key(x)) then [x] + xs
    else [xs[0]] + Insert(x, xs[1..], key)
  }

  /** Inserting into a sorted list keeps it sorted and adds exactly `x`. */
  lemma {:induction false} InsertSorted<T>(x: T, xs: seq<T>, key: T -> string)
    requires SortedBy(xs, key)
    ensures SortedBy(Insert(x, xs, key), key)
    ensures multiset(Insert(x, xs, key)) == multiset(xs) + multiset{x}
    decreases |xs|
  {
    var r := Insert(x, xs, key);
    if |xs| == 0 {
    } else if !LexLess(key(xs[0]), key(x)) {
      forall j | 0 < j < |r| ensures LexLeq(key(x), key(r[j])) {
        if j > 1 { LexLeqTransitive(key(x), key(xs[0]), key(r[j])); }
      }
      assert xs == [xs[0]] + xs[1..];
    } else {
      var rest := Insert(x, xs[1..], key);
      InsertSorted(x, xs[1..], key);
      assert r == [xs[0]] + rest;
      LexLeqTotal(key(xs[0]), key(x));
      forall j | 0 < j < |r| ensures LexLeq(key(xs[0]), key(r[j])) {
        assert r[j] == rest[j - 1];
        assert r[j] in multiset(rest);
        assert r[j] == x || r[j] in multiset(xs[1..]);
        if r[j] != x {
          var k :| 1 <= k < |xs| && xs[k] == r[j] by {
            assert r[j] in xs[1..];
            var k' :| 0 <= k' < |xs[1..]| && xs[1..][k'] == r[j];
            assert xs[k' + 1] == r[j];
          }
        }
      }
      assert xs == [xs[0]] + xs[1..];
    }
  }

  /** The elements of `xs` ordered by key, equal keys in their original order. */
  function SortBy<T>(xs: seq<T>, key: T -> string): (r: seq<T>)
    ensures |r| == |xs|
    decreases |xs|
  {
    if |xs| == 0 then [] else Insert(xs[0], SortBy(xs[1..], key), key)
  }

  /** Sorting gives a sorted list holding every element as often as the input does. */
  lemma {:induction false} SortBySorted<T>(xs: seq<T>, key: T -> string)
    ensures SortedBy(SortBy(xs, key), key)
    ensures multiset(SortBy(xs, key)) == multiset(xs)
    decreases |xs|
  {
    if |xs| > 0 {
      SortBySorted(xs[1..], key);
      InsertSorted(xs[0], SortBy(xs[1..], key), key);
      assert xs == [xs[0]] + xs[1..];
    }
  }

  /** The elements of `xs` whose key is `k`, in order. */
  function WithKey<T>(xs: seq<T>, key: T -> string, k: string): seq<T>
    decreases |xs|
  {
    if |xs| == 0 then [] else (if key(xs[0]) == k then [xs[0]] else []) + WithKey(xs[1..], key, k)
  }

  /** `x` goes in front of every element with the same key. */
  lemma {:induction false} InsertWithKey<T>(x: T, xs: seq<T>, key: T -> string, k: string)
    ensures WithKey(Insert(x, xs, key), key, k) == (if key(x) == k then [x] else []) + WithKey(xs, key, k)
    decreases |xs|
  {
    if |xs| == 0 {
      assert [x][1..] == [];
    } else if !LexLess(key(xs[0]), key(x)) {
      assert ([x] + xs)[1..] == xs;
    } else {
      LexLessIrreflexive(key(x));
      InsertWithKey(x, xs[1..], key, k);
      assert ([xs[0]] + Insert(x, xs[1..], key))[1..] == Insert(x, xs[1..], key);
    }
  }

  /** Sorting is stable: the elements of one key keep their relative order. */
  lemma {:induction false} SortByStable<T>(xs: seq<T>, key: T -> string, k: string)
    ensures WithKey(SortBy(xs, key), key, k) == WithKey(xs, key, k)
    decreases |xs|
  {
    if |xs| > 0 {
      SortByStable(xs[1..], key, k);
      InsertWithKey(xs[0], SortBy(xs[1..], key), key, k);
    }
  }

  /** `xs` back to front. */
  function Reverse<T>(xs: seq<T>): (r: seq<T>)
    ensures |r| == |xs|
    ensures forall i :: 0 <= i < |xs| ==> r[i] == xs[|xs| - 1 - i]
    ensures multiset(r) == multiset(xs)
  {
    if |xs| == 0 then []
    else
      assert xs == [xs[0]] + xs[1..];
      Reverse(xs[1..]) + [xs[0]]
  }

  /**
   * `xs.sort((a, b) => b.localeCompare(a))`: the elements of `xs`, each no earlier in the
   * order than the ones after it. Sorting descending by a total order gives the reverse
   * of the ascending sort.
   */
  function SortDescending(xs: seq<string>): (r: seq<string>)
    ensures multiset(r) == multiset(xs)
    ensures forall i, j :: 0 <= i < j < |r| ==> LexLeq(r[j], r[i])
  {
    var up := SortBy(xs, (x: string) => x);
    SortBySorted(xs, (x: string) => x);
    ReverseAscending(up);
    Reverse(up)
  }

  /** An ascending list read back to front is descending. */
  lemma ReverseAscending(up: seq<string>)
    requires SortedBy(up, (x: string) => x)
    ensures forall i, j :: 0 <= i < j < |up| ==> LexLeq(Reverse(up)[j], Reverse(up)[i])
  {
    var r := Reverse(up);
    forall i, j | 0 <= i < j < |r| ensures LexLeq(r[j], r[i]) {
      assert r[j] == up[|up| - 1 - j] && r[i] == up[|up| - 1 - i];
    }
  }

  /** No element occurs twice. */
  predicate Distinct<T(==)>(xs: seq<T>) {
    forall i, j :: 0 <= i < j < |xs| ==> xs[i] != xs[j]
  }

  lemma {:induction false} DistinctCount<T>(xs: seq<T>)
    requires Distinct(xs)
    ensures forall x :: multiset(xs)[x] <= 1
  {
    if |xs| > 0 {
      assert Distinct(xs[1..]) by {
        forall i, j | 0 <= i < j < |xs[1..]| ensures xs[1..][i] != xs[1..][j] {
          assert xs[1..][i] == xs[i + 1] && xs[1..][j] == xs[j + 1];
        }
      }
      DistinctCount(xs[1..]);
      assert xs[0] !in xs[1..] by {
        forall k | 0 <= k < |xs[1..]| ensures xs[1..][k] != xs[0] { assert xs[1..][k] == xs[k + 1]; }
      }
      assert xs == [xs[0]] + xs[1..];
    }
  }

  lemma DuplicateCount<T>(xs: seq<T>, i: nat, j: nat)
    requires i < j < |xs|
    ensures xs[i] == xs[j] ==> multiset(xs)[xs[i]] >= 2
  {
    if xs[i] == xs[j] {
      assert xs == xs[..j] + [xs[j]] + xs[j + 1..];
      assert xs[..j][i] == xs[i];
      assert xs[i] in multiset(xs[..j]);
    }
  }

  /** A permutation of a list without repeats has none either. */
  lemma DistinctPermutation<T>(xs: seq<T>, ys: seq<T>)
    requires Distinct(xs) && multiset(ys) == multiset(xs)
    ensures Distinct(ys)
  {
    DistinctCount(xs);
    forall i, j | 0 <= i < j < |ys| ensures ys[i] != ys[j] {
      DuplicateCount(ys, i, j);
    }
  }

  /** Sorting distinct strings descending puts each strictly after the next in string order. */
  lemma SortDescendingStrict(xs: seq<string>)
    requires Distinct(xs)
    ensures var r := SortDescending(xs);
      forall i, j :: 0 <= i < j < |r| ==> LexLess(r[j], r[i])
  {
    var r := SortDescending(xs);
    DistinctPermutation(xs, r);
    forall i, j | 0 <= i < j < |r| ensures LexLess(r[j], r[i]) {
      LexLessTotal(r[i], r[j]);
    }
  }
}
