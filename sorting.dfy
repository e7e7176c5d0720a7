/**
 * The descending sort that both event arrays of the queue go through. The source calls
 * `Array.prototype.sort` with a comparator on one real key (a point's y): it returns -1
 * when the first key is larger, 1 when it is smaller and 0 on a tie. Since ECMAScript
 * 2019 that sort is stable, so its result is the permutation that is non-increasing in
 * the key and keeps tied elements in their input order. SortDesc below is an insertion
 * sort with exactly that outcome, proved sorted, a permutation and stable.
 */
module Sorting {

  /** Non-increasing key from the front to the back. */
  ghost predicate SortedDesc<T>(s: seq<T>, key: T -> real)
  {
    forall i, j :: 0 <= i < j < |s| ==> key(s[i]) >= key(s[j])
  }

  /** Places `e` after every element of `t` whose key is at least `key(e)`. */
  function InsertDesc<T>(t: seq<T>, e: T, key: T -> real): (r: seq<T>)
    ensures |r| == |t| + 1
    decreases |t|
  {
    if t == [] then [e]
    else if key(e) > key(t[0]) then [e] + t
    else [t[0]] + InsertDesc(t[1..], e, key)
  }

  /** Sorts the prefix, then inserts the last element behind its equals. */
  function SortDesc<T>(s: seq<T>, key: T -> real): (r: seq<T>)
    ensures |r| == |s|
    decreases |s|
  {
    if s == [] then [] else InsertDesc(SortDesc(s[..|s| - 1], key), s[|s| - 1], key)
  }

  /** The elements of `s` whose key is `k`, in their order in `s`. */
  function WithKey<T>(s: seq<T>, key: T -> real, k: real): seq<T>
    decreases |s|
  {
    if s == [] then [] else (if key(s[0]) == k then [s[0]] else []) + WithKey(s[1..], key, k)
  }

  /** A sorted sequence whose tail is dropped from the front stays sorted. */
  lemma SortedDescTail<T>(t: seq<T>, key: T -> real)
    requires t != [] && SortedDesc(t, key)
    ensures SortedDesc(t[1..], key)
    ensures forall i :: 0 <= i < |t[1..]| ==> key(t[1..][i]) <= key(t[0])
  {
  }

  /** An upper bound on every key of `t` and on `key(e)` bounds every key after inserting. */
  lemma {:induction false} InsertDescBounded<T>(t: seq<T>, e: T, key: T -> real, b: real)
    requires forall i :: 0 <= i < |t| ==> key(t[i]) <= b
    requires key(e) <= b
    ensures forall i :: 0 <= i < |InsertDesc(t, e, key)| ==> key(InsertDesc(t, e, key)[i]) <= b
    decreases |t|
  {
    if t != [] && key(e) <= key(t[0]) {
      assert forall i :: 0 <= i < |t[1..]| ==> t[1..][i] == t[i + 1];
      InsertDescBounded(t[1..], e, key, b);
      var r := InsertDesc(t, e, key);
      forall i | 0 <= i < |r| ensures key(r[i]) <= b {
        if i > 0 { assert r[i] == InsertDesc(t[1..], e, key)[i - 1]; }
      }
    }
  }

  lemma {:induction false} InsertDescSorted<T>(t: seq<T>, e: T, key: T -> real)
    requires SortedDesc(t, key)
    ensures SortedDesc(InsertDesc(t, e, key), key)
    decreases |t|
  {
    if t == [] {
    } else if key(e) > key(t[0]) {
      var r := [e] + t;
      forall i, j | 0 <= i < j < |r| ensures key(r[i]) >= key(r[j]) {
        if i > 0 { assert r[i] == t[i - 1] && r[j] == t[j - 1]; }
        else { assert r[j] == t[j - 1]; assert key(t[0]) >= key(t[j - 1]); }
      }
    } else {
      SortedDescTail(t, key);
      InsertDescSorted(t[1..], e, key);
      var rest := InsertDesc(t[1..], e, key);
      InsertDescBounded(t[1..], e, key, key(t[0]));
      var r := [t[0]] + rest;
      forall i, j | 0 <= i < j < |r| ensures key(r[i]) >= key(r[j]) {
        assert r[j] == rest[j - 1];
        if i > 0 { assert r[i] == rest[i - 1]; }
      }
    }
  }

  lemma {:induction false} InsertDescPermutation<T>(t: seq<T>, e: T, key: T -> real)
    ensures multiset(InsertDesc(t, e, key)) == multiset(t) + multiset{e}
    decreases |t|
  {
    if t != [] {
      assert t == [t[0]] + t[1..];
      if key(e) <= key(t[0]) {
        InsertDescPermutation(t[1..], e, key);
      }
    }
  }

  /** The sort's output is in non-increasing key order. */
  lemma {:induction false} SortDescSorted<T>(s: seq<T>, key: T -> real)
    ensures SortedDesc(SortDesc(s, key), key)
    decreases |s|
  {
    if s != [] {
      SortDescSorted(s[..|s| - 1], key);
      InsertDescSorted(SortDesc(s[..|s| - 1], key), s[|s| - 1], key);
    }
  }

  /** The sort's output holds exactly the input's elements, with their multiplicities. */
  lemma {:induction false} SortDescPermutation<T>(s: seq<T>, key: T -> real)
    ensures multiset(SortDesc(s, key)) == multiset(s)
    decreases |s|
  {
    if s != [] {
      var init := s[..|s| - 1];
      SortDescPermutation(init, key);
      InsertDescPermutation(SortDesc(init, key), s[|s| - 1], key);
      assert s == init + [s[|s| - 1]];
    }
  }

  lemma {:induction false} WithKeyAppend<T>(a: seq<T>, b: seq<T>, key: T -> real, k: real)
    ensures WithKey(a + b, key, k) == WithKey(a, key, k) + WithKey(b, key, k)
    decreases |a|
  {
    if a != [] {
      assert (a + b)[1..] == a[1..] + b;
      WithKeyAppend(a[1..], b, key, k);
    } else {
      assert a + b == b;
    }
  }

  /** No element of a sequence whose every key lies below `k` has key `k`. */
  lemma {:induction false} WithKeyBelow<T>(t: seq<T>, key: T -> real, k: real)
    requires forall i :: 0 <= i < |t| ==> key(t[i]) < k
    ensures WithKey(t, key, k) == []
    decreases |t|
  {
    if t != [] {
      assert forall i :: 0 <= i < |t[1..]| ==> t[1..][i] == t[i + 1];
      WithKeyBelow(t[1..], key, k);
    }
  }

  lemma {:induction false} InsertDescStable<T>(t: seq<T>, e: T, key: T -> real, k: real)
    requires SortedDesc(t, key)
    ensures WithKey(InsertDesc(t, e, key), key, k)
         == WithKey(t, key, k) + (if key(e) == k then [e] else [])
    decreases |t|
  {
    if t == [] {
      assert WithKey([e], key, k) == (if key(e) == k then [e] else []) + WithKey([e][1..], key, k);
    } else if key(e) > key(t[0]) {
      assert ([e] + t)[1..] == t;
      if key(e) == k {
        WithKeyBelow(t, key, k);
      }
    } else {
      assert SortedDesc(t[1..], key) by {
        forall i, j | 0 <= i < j < |t[1..]| ensures key(t[1..][i]) >= key(t[1..][j]) {
          assert t[1..][i] == t[i + 1] && t[1..][j] == t[j + 1];
        }
      }
      InsertDescStable(t[1..], e, key, k);
      assert ([t[0]] + InsertDesc(t[1..], e, key))[1..] == InsertDesc(t[1..], e, key);
    }
  }

  /**
   * Stability: for every key value, the sorted output lists the elements with that key
   * in the same order as the input does.
   */
  lemma {:induction false} SortDescStable<T>(s: seq<T>, key: T -> real, k: real)
    ensures WithKey(SortDesc(s, key), key, k) == WithKey(s, key, k)
    decreases |s|
  {
    if s != [] {
      var init, last := s[..|s| - 1], s[|s| - 1];
      SortDescSorted(init, key);
      SortDescStable(init, key, k);
      InsertDescStable(SortDesc(init, key), last, key, k);
      assert s == init + [last];
      WithKeyAppend(init, [last], key, k);
      assert WithKey([last], key, k) == (if key(last) == k then [last] else []) + WithKey([last][1..], key, k);
    }
  }
}
