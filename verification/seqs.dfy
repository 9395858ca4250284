/**
 * Generic sequence operations the source uses through JavaScript's
 * `Array.prototype.filter` and through a `Map` filled with a
 * "first one wins" `has`/`set` check and read back with `Array.from(map.values())`.
 */
module Seqs {

  /** `s.filter(p)`: the elements of `s` that satisfy `p`, in their original order. */
  function Filter<T(==)>(s: seq<T>, p: T -> bool): (r: seq<T>)
    ensures |r| <= |s|
    ensures forall i :: 0 <= i < |r| ==> r[i] in s && p(r[i])
    ensures forall i :: 0 <= i < |s| && p(s[i]) ==> s[i] in r
  {
    if s == [] then []
    else if p(s[0]) then [s[0]] + Filter(s[1..], p)
    else Filter(s[1..], p)
  }

  /** Filtering commutes with concatenation, so relative order is kept. */
  lemma {:induction false} FilterConcat<T>(a: seq<T>, b: seq<T>, p: T -> bool)
    ensures Filter(a + b, p) == Filter(a, p) + Filter(b, p)
  {
    if a == [] {
      assert a + b == b;
    } else {
      assert (a + b)[1..] == a[1..] + b;
      FilterConcat(a[1..], b, p);
    }
  }

  /** Filtering twice is filtering once by the conjunction. */
  lemma {:induction false} FilterFilter<T>(s: seq<T>, p: T -> bool, q: T -> bool, pq: T -> bool)
    requires forall x :: pq(x) == (p(x) && q(x))
    ensures Filter(Filter(s, p), q) == Filter(s, pq)
  {
    if s != [] {
      FilterFilter(s[1..], p, q, pq);
    }
  }

  /** A filter that every element passes returns its input. */
  lemma {:induction false} FilterKeepsAll<T>(s: seq<T>, p: T -> bool)
    requires forall i :: 0 <= i < |s| ==> p(s[i])
    ensures Filter(s, p) == s
  {
    if s != [] {
      FilterKeepsAll(s[1..], p);
    }
  }

  /** The keys of a filtered sequence are among the keys of the original. */
  lemma {:induction false} FilterKeys<T>(s: seq<T>, p: T -> bool, key: T -> int)
    ensures KeysOf(Filter(s, p), key) <= KeysOf(s, key)
  {
    var r := Filter(s, p);
    forall k | k in KeysOf(r, key) ensures k in KeysOf(s, key) {
      var x :| x in r && key(x) == k;
      var i :| 0 <= i < |r| && r[i] == x;
    }
  }

  /** Filtering keeps keys distinct. */
  lemma {:induction false} FilterKeepsDistinct<T>(s: seq<T>, p: T -> bool, key: T -> int)
    requires DistinctKeys(s, key)
    ensures DistinctKeys(Filter(s, p), key)
  {
    if s != [] {
      FilterKeepsDistinct(s[1..], p, key);
      FilterKeys(s[1..], p, key);
      assert forall j :: 1 <= j < |s| ==> s[j] == s[1..][j - 1];
      assert key(s[0]) !in KeysOf(s[1..], key);
    }
  }

  /** The set of keys of the elements of `s`. */
  function KeysOf<T(==)>(s: seq<T>, key: T -> int): set<int> {
    set x | x in s :: key(x)
  }

  /** No two elements of `s` have the same key. */
  ghost predicate DistinctKeys<T>(s: seq<T>, key: T -> int) {
    forall i, j :: 0 <= i < j < |s| ==> key(s[i]) != key(s[j])
  }

  lemma KeysOfSnoc<T>(s: seq<T>, x: T, key: T -> int)
    ensures KeysOf(s + [x], key) == KeysOf(s, key) + {key(x)}
  {
    assert forall y :: y in s + [x] <==> y in s || y == x;
  }

  /**
   * Keep, for each key, only the first element that carries it, in the
   * order in which the keys first occur: the values of a `Map` that is
   * filled in order with `if (!m.has(key(x))) m.set(key(x), x)`.
   */
  function FirstWins<T(==)>(s: seq<T>, key: T -> int): (r: seq<T>)
    ensures |r| <= |s|
    ensures forall i :: 0 <= i < |r| ==> r[i] in s
    ensures KeysOf(r, key) == KeysOf(s, key)
    ensures DistinctKeys(r, key)
  {
    if s == [] then []
    else
      var init := s[..|s| - 1];
      var last := s[|s| - 1];
      assert s == init + [last];
      KeysOfSnoc(init, last, key);
      var r := FirstWins(init, key);
      if key(last) in KeysOf(r, key) then r
      else
        KeysOfSnoc(r, last, key);
        r + [last]
  }

  /** One step of `FirstWins`: what the loop does with the next element. */
  lemma FirstWinsSnoc<T>(s: seq<T>, x: T, key: T -> int)
    ensures FirstWins(s + [x], key) ==
            if key(x) in KeysOf(FirstWins(s, key), key) then FirstWins(s, key)
            else FirstWins(s, key) + [x]
  {
    assert (s + [x])[..|s + [x]| - 1] == s;
  }

  /**
   * One `has`/`set` step of such a map: `kept` are its values so far and
   * `seen` its keys, for the elements `offered` so far.
   */
  lemma FirstWinsStep<T>(offered: seq<T>, kept: seq<T>, seen: set<int>, x: T, key: T -> int)
    requires kept == FirstWins(offered, key) && seen == KeysOf(kept, key)
    ensures key(x) in seen ==> FirstWins(offered + [x], key) == kept
    ensures key(x) !in seen ==> FirstWins(offered + [x], key) == kept + [x]
                                && KeysOf(kept + [x], key) == seen + {key(x)}
  {
    FirstWinsSnoc(offered, x, key);
    KeysOfSnoc(kept, x, key);
  }

  /**
   * One `if (!m.has(key(x))) m.set(key(x), x)` step on a map whose values in
   * insertion order are `kept` and whose keys are `seen`, after the elements
   * `offered` so far.
   */
  method Offer<T(==)>(x: T, key: T -> int, ghost offered: seq<T>, kept: seq<T>, seen: set<int>)
    returns (kept': seq<T>, seen': set<int>)
    requires kept == FirstWins(offered, key) && seen == KeysOf(kept, key)
    ensures kept' == FirstWins(offered + [x], key) && seen' == KeysOf(kept', key)
  {
    FirstWinsStep(offered, kept, seen, x, key);
    if key(x) !in seen {
      kept', seen' := kept + [x], seen + {key(x)};
    } else {
      kept', seen' := kept, seen;
    }
  }

  /** The position of the first element of `s` whose key is `k`. */
  function FirstIndex<T(==)>(s: seq<T>, key: T -> int, k: int): (i: nat)
    requires k in KeysOf(s, key)
    ensures i < |s| && key(s[i]) == k
    ensures forall j :: 0 <= j < i ==> key(s[j]) != k
  {
    var init := s[..|s| - 1];
    assert s == init + [s[|s| - 1]];
    if k in KeysOf(init, key) then FirstIndex(init, key, k)
    else
      assert forall j :: 0 <= j < |s| - 1 ==> s[j] in init;
      |s| - 1
  }

  /** Where a key first occurs once one more element is appended. */
  lemma FirstIndexSnoc<T>(init: seq<T>, x: T, key: T -> int, k: int)
    requires k in KeysOf(init + [x], key)
    ensures k in KeysOf(init, key) ==> FirstIndex(init + [x], key, k) == FirstIndex(init, key, k)
    ensures k !in KeysOf(init, key) ==> k == key(x) && FirstIndex(init + [x], key, k) == |init|
  {
    assert (init + [x])[..|init + [x]| - 1] == init;
  }

  /** `FirstWins` keeps, for every key, the element at that key's first occurrence. */
  lemma {:induction false} FirstWinsKeepsFirst<T>(s: seq<T>, key: T -> int)
    ensures var r := FirstWins(s, key);
            forall m :: 0 <= m < |r| ==>
              key(r[m]) in KeysOf(s, key) && r[m] == s[FirstIndex(s, key, key(r[m]))]
  {
    var r := FirstWins(s, key);
    if s != [] {
      var init, last := s[..|s| - 1], s[|s| - 1];
      assert s == init + [last];
      FirstWinsKeepsFirst(init, key);
      FirstWinsSnoc(init, last, key);
      var r' := FirstWins(init, key);
      forall m | 0 <= m < |r|
        ensures key(r[m]) in KeysOf(s, key) && r[m] == s[FirstIndex(s, key, key(r[m]))]
      {
        assert r[m] in r;
        FirstIndexSnoc(init, last, key, key(r[m]));
        if m < |r'| {
          assert r[m] == r'[m];
          var i := FirstIndex(init, key, key(r[m]));
          assert init[i] == s[i];
        } else {
          assert r[m] == last;
        }
      }
    }
  }

  /** `FirstWins` lists the kept elements in the order of their keys' first occurrences. */
  lemma {:induction false} FirstWinsKeepsOrder<T>(s: seq<T>, key: T -> int)
    ensures var r := FirstWins(s, key);
            forall m1, m2 :: 0 <= m1 < m2 < |r| ==>
              key(r[m1]) in KeysOf(s, key) && key(r[m2]) in KeysOf(s, key) &&
              FirstIndex(s, key, key(r[m1])) < FirstIndex(s, key, key(r[m2]))
  {
    var r := FirstWins(s, key);
    if s != [] {
      var init, last := s[..|s| - 1], s[|s| - 1];
      assert s == init + [last];
      FirstWinsKeepsOrder(init, key);
      FirstWinsSnoc(init, last, key);
      var r' := FirstWins(init, key);
      forall m1, m2 | 0 <= m1 < m2 < |r|
        ensures key(r[m1]) in KeysOf(s, key) && key(r[m2]) in KeysOf(s, key)
        ensures FirstIndex(s, key, key(r[m1])) < FirstIndex(s, key, key(r[m2]))
      {
        assert r[m1] in r && r[m2] in r;
        assert r[m1] == r'[m1] && r'[m1] in r';
        FirstIndexSnoc(init, last, key, key(r[m1]));
        FirstIndexSnoc(init, last, key, key(r[m2]));
        if m2 < |r'| {
          assert r[m2] == r'[m2] && r'[m2] in r';
        } else {
          assert r[m2] == last;
        }
      }
    }
  }
}
