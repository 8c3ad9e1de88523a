/** Removing repeated entries, the first occurrence winning (`filter` over a `seen` set). */
module Dedup {

  /** The elements of `xs` whose key is not in `seen` nor the key of an earlier element. */
  function FirstWinsFrom<T, K(==)>(xs: seq<T>, key: T -> K, seen: set<K>): seq<T>
    decreases |xs|
  {
    if |xs| == 0 then []
    else if key(xs[0]) in seen then FirstWinsFrom(xs[1..], key, seen)
    else [xs[0]] + FirstWinsFrom(xs[1..], key, seen + {key(xs[0])})
  }

  /** `xs` with every element whose key an earlier element already had removed. */
  function FirstWins<T, K(==)>(xs: seq<T>, key: T -> K): seq<T> {
    FirstWinsFrom(xs, key, {})
  }

  /** The set of keys of a list. */
  function Keys<T, K>(xs: seq<T>, key: T -> K): set<K> {
    set i | 0 <= i < |xs| :: key(xs[i])
  }

  /**
   * The source's filter: one pass over the list that keeps an entry when its key has not
   * been seen and adds the key to `seen`.
   */
  method DedupBy<T, K(==)>(xs: seq<T>, key: T -> K) returns (r: seq<T>)
    ensures r == FirstWins(xs, key)
  {
    var seen: set<K> := {};
    r := [];
    for i := 0 to |xs|
      invariant r + FirstWinsFrom(xs[i..], key, seen) == FirstWins(xs, key)
    {
      assert xs[i..][1..] == xs[i + 1..];
      if key(xs[i]) !in seen {
        seen := seen + {key(xs[i])};
        r := r + [xs[i]];
      }
    }
  }

  /** `r` is `xs` with some elements left out and the rest in the same order. */
  predicate Subsequence<T(==)>(r: seq<T>, xs: seq<T>)
    decreases |xs|
  {
    if |r| == 0 then true
    else if |xs| == 0 then false
    else if r[0] == xs[0] then Subsequence(r[1..], xs[1..])
    else Subsequence(r, xs[1..])
  }

  lemma {:induction false} FirstWinsFromShape<T, K>(xs: seq<T>, key: T -> K, seen: set<K>)
    ensures var r := FirstWinsFrom(xs, key, seen);
      && Subsequence(r, xs)
      && Keys(r, key) == Keys(xs, key) - seen
      && (forall a, b :: 0 <= a < b < |r| ==> key(r[a]) != key(r[b]))
    decreases |xs|
  {
    var r := FirstWinsFrom(xs, key, seen);
    if |xs| > 0 {
      var k := key(xs[0]);
      var seen' := if k in seen then seen else seen + {k};
      FirstWinsFromShape(xs[1..], key, seen');
      var tail := FirstWinsFrom(xs[1..], key, seen');
      assert Keys(xs, key) == {k} + Keys(xs[1..], key) by {
        forall x | x in Keys(xs, key) ensures x in {k} + Keys(xs[1..], key) {
          var i :| 0 <= i < |xs| && key(xs[i]) == x;
          if i > 0 { assert key(xs[1..][i - 1]) == x; }
        }
        forall x | x in Keys(xs[1..], key) ensures x in Keys(xs, key) {
          var i :| 0 <= i < |xs[1..]| && key(xs[1..][i]) == x;
          assert key(xs[i + 1]) == x;
        }
      }
      if k !in seen {
        assert r == [xs[0]] + tail;
        assert r[1..] == tail;
        assert Keys(r, key) == {k} + Keys(tail, key) by {
          forall x | x in Keys(r, key) ensures x in {k} + Keys(tail, key) {
            var i :| 0 <= i < |r| && key(r[i]) == x;
            if i > 0 { assert key(tail[i - 1]) == x; }
          }
          forall x | x in Keys(tail, key) ensures x in Keys(r, key) {
            var i :| 0 <= i < |tail| && key(tail[i]) == x;
            assert key(r[i + 1]) == x;
          }
          assert key(r[0]) == k;
        }
        forall a, b | 0 <= a < b < |r| ensures key(r[a]) != key(r[b]) {
          if a == 0 {
            assert key(r[b]) in Keys(tail, key) by { assert key(tail[b - 1]) == key(r[b]); }
          } else {
            assert r[a] == tail[a - 1] && r[b] == tail[b - 1];
          }
        }
      }
    }
  }

  /** The kept entries keep their order, no key repeats, and no key is lost. */
  lemma FirstWinsProperties<T, K>(xs: seq<T>, key: T -> K)
    ensures var r := FirstWins(xs, key);
      && Subsequence(r, xs)
      && Keys(r, key) == Keys(xs, key)
      && (forall a, b :: 0 <= a < b < |r| ==> key(r[a]) != key(r[b]))
  {
    FirstWinsFromShape(xs, key, {});
  }

  /** The keys of a list are its head's key and the keys of its tail. */
  lemma KeysCons<T, K>(xs: seq<T>, key: T -> K)
    requires |xs| > 0
    ensures Keys(xs, key) == {key(xs[0])} + Keys(xs[1..], key)
  {
    forall x | x in Keys(xs, key) ensures x in {key(xs[0])} + Keys(xs[1..], key) {
      var i :| 0 <= i < |xs| && key(xs[i]) == x;
      if i > 0 { assert key(xs[1..][i - 1]) == x; }
    }
    forall x | x in Keys(xs[1..], key) ensures x in Keys(xs, key) {
      var i :| 0 <= i < |xs[1..]| && key(xs[1..][i]) == x;
      assert key(xs[i + 1]) == x;
    }
  }

  /**
   * Removing repeats from two lists in a row: the first list loses its own repeats, and the
   * second one also loses every entry whose key the first list has.
   */
  lemma {:induction false} FirstWinsAppend<T, K>(a: seq<T>, b: seq<T>, key: T -> K, seen: set<K>)
    ensures FirstWinsFrom(a + b, key, seen) == FirstWinsFrom(a, key, seen) + FirstWinsFrom(b, key, seen + Keys(a, key))
    decreases |a|
  {
    if |a| == 0 {
      assert a + b == b;
      assert Keys(a, key) == {};
      assert seen + Keys(a, key) == seen;
    } else {
      var k := key(a[0]);
      var seen' := if k in seen then seen else seen + {k};
      assert (a + b)[0] == a[0];
      assert (a + b)[1..] == a[1..] + b;
      FirstWinsAppend(a[1..], b, key, seen');
      KeysCons(a, key);
      assert seen' + Keys(a[1..], key) == seen + Keys(a, key);
    }
  }

  /** A list whose keys are all different and none of them seen is kept whole. */
  lemma {:induction false} FirstWinsDistinct<T, K>(xs: seq<T>, key: T -> K, seen: set<K>)
    requires forall i :: 0 <= i < |xs| ==> key(xs[i]) !in seen
    requires forall i, j :: 0 <= i < j < |xs| ==> key(xs[i]) != key(xs[j])
    ensures FirstWinsFrom(xs, key, seen) == xs
    decreases |xs|
  {
    if |xs| > 0 {
      var seen' := seen + {key(xs[0])};
      forall i | 0 <= i < |xs[1..]| ensures key(xs[1..][i]) !in seen' {
        assert xs[1..][i] == xs[i + 1];
      }
      forall i, j | 0 <= i < j < |xs[1..]| ensures key(xs[1..][i]) != key(xs[1..][j]) {
        assert xs[1..][i] == xs[i + 1] && xs[1..][j] == xs[j + 1];
      }
      FirstWinsDistinct(xs[1..], key, seen');
    }
  }

  /** An entry whose key no earlier entry has is kept. */
  lemma {:induction false} FirstOccurrenceKeptFrom<T, K>(xs: seq<T>, key: T -> K, seen: set<K>, i: nat)
    requires i < |xs| && key(xs[i]) !in seen
    requires forall j :: 0 <= j < i ==> key(xs[j]) != key(xs[i])
    ensures xs[i] in FirstWinsFrom(xs, key, seen)
    decreases i
  {
    if i == 0 {
    } else {
      var seen' := if key(xs[0]) in seen then seen else seen + {key(xs[0])};
      assert xs[1..][i - 1] == xs[i];
      FirstOccurrenceKeptFrom(xs[1..], key, seen', i - 1);
    }
  }

  lemma FirstOccurrenceKept<T, K>(xs: seq<T>, key: T -> K, i: nat)
    requires i < |xs|
    requires forall j :: 0 <= j < i ==> key(xs[j]) != key(xs[i])
    ensures xs[i] in FirstWins(xs, key)
  {
    FirstOccurrenceKeptFrom(xs, key, {}, i);
  }
}
