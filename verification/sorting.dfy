/**
 * Python's `list.sort(key=...)`: a stable sort. Elements are ordered by
 * their keys, and elements with equal keys keep their original order.
 * Modelled as insertion sort over sequences.
 */
module Sorting {

  ghost predicate SortedBy<T>(s: seq<T>, key: T -> int) {
    forall i, j :: 0 <= i < j < |s| ==> key(s[i]) <= key(s[j])
  }

  /** The elements of `s` whose key is `k`, in their order in `s`. */
  function WithKey<T>(s: seq<T>, key: T -> int, k: int): seq<T> {
    if s == [] then []
    else WithKey(s[..|s| - 1], key, k) + (if key(s[|s| - 1]) == k then [s[|s| - 1]] else [])
  }

  /** Places `x` in sorted `s` after every element whose key is at most the key of `x`. */
  function InsertByKey<T>(s: seq<T>, x: T, key: T -> int): (r: seq<T>)
    requires SortedBy(s, key)
    ensures SortedBy(r, key)
    ensures multiset(r) == multiset(s) + multiset{x}
  {
    if s == [] || key(s[|s| - 1]) <= key(x) then s + [x]
    else
      var init := s[..|s| - 1];
      assert s == init + [s[|s| - 1]];
      var r := InsertByKey(init, x, key);
      InsertedBelow(init, x, key, r, s[|s| - 1]);
      r + [s[|s| - 1]]
  }

  /** Appending an element with the greatest key keeps the sequence sorted. */
  lemma InsertedBelow<T>(init: seq<T>, x: T, key: T -> int, r: seq<T>, last: T)
    requires SortedBy(init + [last], key) && key(x) < key(last) && SortedBy(r, key)
    requires multiset(r) == multiset(init) + multiset{x}
    ensures SortedBy(r + [last], key)
  {
    forall i | 0 <= i < |r|
      ensures key(r[i]) <= key(last)
    {
      assert r[i] in multiset(r);
      if r[i] != x {
        assert r[i] in multiset(init);
        var j :| 0 <= j < |init| && init[j] == r[i];
        assert (init + [last])[j] == init[j];
        assert (init + [last])[|init|] == last;
      }
    }
  }

  function SortByKey<T>(s: seq<T>, key: T -> int): (r: seq<T>)
    ensures SortedBy(r, key)
    ensures multiset(r) == multiset(s)
  {
    if s == [] then []
    else
      assert s == s[..|s| - 1] + [s[|s| - 1]];
      InsertByKey(SortByKey(s[..|s| - 1], key), s[|s| - 1], key)
  }

  lemma {:induction false} InsertByKeyStable<T>(s: seq<T>, x: T, key: T -> int, k: int)
    requires SortedBy(s, key)
    ensures WithKey(InsertByKey(s, x, key), key, k) == WithKey(s, key, k) + (if key(x) == k then [x] else [])
  {
    if s == [] || key(s[|s| - 1]) <= key(x) {
      assert InsertByKey(s, x, key) == s + [x];
      WithKeyAppend(s, x, key, k);
    } else {
      var init := s[..|s| - 1];
      var last := s[|s| - 1];
      SortedPrefix(s, key);
      var r := InsertByKey(init, x, key);
      var picked := if key(x) == k then [x] else [];
      var kept := if key(last) == k then [last] else [];
      calc {
        WithKey(InsertByKey(s, x, key), key, k);
        { assert InsertByKey(s, x, key) == r + [last]; }
        WithKey(r + [last], key, k);
        { WithKeyAppend(r, last, key, k); }
        WithKey(r, key, k) + kept;
        { InsertByKeyStable(init, x, key, k); }
        WithKey(init, key, k) + picked + kept;
        { OneIsEmpty(WithKey(init, key, k), picked, kept); }
        WithKey(init, key, k) + kept + picked;
        { WithKeyAppend(init, last, key, k); }
        WithKey(init + [last], key, k) + picked;
        { assert init + [last] == s; }
        WithKey(s, key, k) + picked;
      }
    }
  }

  /** `x` and `last` have different keys, so at most one of them has key `k`. */
  lemma OneIsEmpty<T>(a: seq<T>, b: seq<T>, c: seq<T>)
    requires b == [] || c == []
    ensures a + b + c == a + c + b
  {
    if b == [] {
      assert a + b == a && a + c + b == a + c;
    } else {
      assert a + c == a && a + b + c == a + b;
    }
  }

  /** The elements with key `k` of `a + [x]`: those of `a`, then `x` if its key is `k`. */
  lemma WithKeyAppend<T>(a: seq<T>, x: T, key: T -> int, k: int)
    ensures WithKey(a + [x], key, k) == WithKey(a, key, k) + (if key(x) == k then [x] else [])
  {
    assert (a + [x])[..|a|] == a;
  }

  lemma SortedPrefix<T>(s: seq<T>, key: T -> int)
    requires SortedBy(s, key) && s != []
    ensures SortedBy(s[..|s| - 1], key)
  {
  }

  /** Sorting is stable: for every key, the elements with that key keep their order. */
  lemma {:induction false} SortByKeyStable<T>(s: seq<T>, key: T -> int, k: int)
    ensures WithKey(SortByKey(s, key), key, k) == WithKey(s, key, k)
  {
    if s != [] {
      var init := s[..|s| - 1];
      var last := s[|s| - 1];
      assert SortByKey(s, key) == InsertByKey(SortByKey(init, key), last, key);
      SortByKeyStable(init, key, k);
      InsertByKeyStable(SortByKey(init, key), last, key, k);
    }
  }

  /** A sequence already in key order is left as it is. */
  lemma {:induction false} SortByKeyOfSorted<T>(s: seq<T>, key: T -> int)
    requires SortedBy(s, key)
    ensures SortByKey(s, key) == s
  {
    if s != [] {
      var init := s[..|s| - 1];
      var last := s[|s| - 1];
      SortedPrefix(s, key);
      calc {
        SortByKey(s, key);
        InsertByKey(SortByKey(init, key), last, key);
        { SortByKeyOfSorted(init, key); }
        InsertByKey(init, last, key);
        { LastIsGreatest(s, key); AppendGreatest(init, last, key); }
        init + [last];
        s;
      }
    }
  }

  lemma LastIsGreatest<T>(s: seq<T>, key: T -> int)
    requires SortedBy(s, key) && s != []
    ensures var init := s[..|s| - 1]; init == [] || key(init[|init| - 1]) <= key(s[|s| - 1])
  {
    if |s| > 1 {
      assert s[..|s| - 1][|s| - 2] == s[|s| - 2];
    }
  }

  /** An element whose key is at least every other key goes to the end. */
  lemma AppendGreatest<T>(init: seq<T>, last: T, key: T -> int)
    requires SortedBy(init, key)
    requires init == [] || key(init[|init| - 1]) <= key(last)
    ensures InsertByKey(init, last, key) == init + [last]
  {
  }

  /** An element whose key is below every other key goes to the front. */
  lemma {:induction false} InsertLeast<T>(s: seq<T>, x: T, key: T -> int)
    requires SortedBy(s, key)
    requires forall i :: 0 <= i < |s| ==> key(x) < key(s[i])
    ensures InsertByKey(s, x, key) == [x] + s
  {
    if s != [] {
      var init := s[..|s| - 1];
      SortedPrefix(s, key);
      InsertLeast(init, x, key);
      assert [x] + init + [s[|s| - 1]] == [x] + s;
    }
  }

  /** `s` back to front: Python's `reversed(s)`. */
  function Reverse<T>(s: seq<T>): (r: seq<T>)
    ensures |r| == |s|
  {
    if s == [] then [] else [s[|s| - 1]] + Reverse(s[..|s| - 1])
  }

  lemma {:induction false} ReverseAt<T>(s: seq<T>, i: int)
    requires 0 <= i < |s|
    ensures Reverse(s)[i] == s[|s| - 1 - i]
  {
    if i > 0 {
      ReverseAt(s[..|s| - 1], i - 1);
    }
  }

  /** Applying `f` after reversing is reversing after applying `f`. */
  lemma ReverseAgrees<A, B>(xs: seq<A>, ys: seq<B>, zs: seq<B>, f: A -> B)
    requires |xs| == |ys| == |zs|
    requires forall i :: 0 <= i < |xs| ==> f(xs[i]) == ys[i]
    requires forall i :: 0 <= i < |zs| ==> zs[i] == f(Reverse(xs)[i])
    ensures zs == Reverse(ys)
  {
    forall i | 0 <= i < |zs|
      ensures zs[i] == Reverse(ys)[i]
    {
      ReverseAt(xs, i);
      ReverseAt(ys, i);
    }
  }

  /** A sequence whose keys strictly decrease sorts into its reverse. */
  lemma {:induction false} SortByKeyOfDescending<T>(s: seq<T>, key: T -> int)
    requires forall i, j :: 0 <= i < j < |s| ==> key(s[j]) < key(s[i])
    ensures SortByKey(s, key) == Reverse(s)
  {
    if s != [] {
      var init := s[..|s| - 1];
      var last := s[|s| - 1];
      assert forall i, j :: 0 <= i < j < |init| ==> key(init[j]) < key(init[i]) by {
        forall i, j | 0 <= i < j < |init|
          ensures key(init[j]) < key(init[i])
        {
          assert init[i] == s[i] && init[j] == s[j];
        }
      }
      SortByKeyOfDescending(init, key);
      forall i | 0 <= i < |init|
        ensures key(last) < key(Reverse(init)[i])
      {
        ReverseAt(init, i);
        assert init[|init| - 1 - i] == s[|init| - 1 - i];
      }
      InsertLeast(Reverse(init), last, key);
    }
  }
}
