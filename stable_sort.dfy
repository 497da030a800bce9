/**
  A stable sort into descending key order, the behaviour of `Collections.sort` with a
  comparator that compares the second argument's key with the first's. `SortDesc` is an
  insertion sort; the lemmas show that it is sorted, a permutation, stable, and the only
  sequence with those properties, so it is the list the library sort produces.
*/
module StableSort {

  /** `s` is in descending order of `key`. */
  ghost predicate SortedDesc<T>(s: seq<T>, key: T -> int) {
    forall i, j :: 0 <= i < j < |s| ==> key(s[i]) >= key(s[j])
  }

  /** The elements of `s` whose key is `k`, in the order they have in `s`. */
  function KeyRun<T>(s: seq<T>, key: T -> int, k: int): seq<T> {
    if s == [] then []
    else (if key(s[0]) == k then [s[0]] else []) + KeyRun(s[1..], key, k)
  }

  /** Places `x` behind every trailing element of `s` whose key is at least key(x)...
      that is, it moves `x` forward only past elements with a smaller key. */
  function InsertDesc<T>(s: seq<T>, x: T, key: T -> int): (r: seq<T>)
    ensures |r| == |s| + 1
    ensures multiset(r) == multiset(s) + multiset{x}
  {
    if s == [] then [x]
    else if key(s[|s| - 1]) >= key(x) then s + [x]
    else
      assert s == s[..|s| - 1] + [s[|s| - 1]];
      InsertDesc(s[..|s| - 1], x, key) + [s[|s| - 1]]
  }

  /** Insertion sort, taking the elements of `s` from first to last. */
  function SortDesc<T>(s: seq<T>, key: T -> int): (r: seq<T>)
    ensures |r| == |s|
    ensures multiset(r) == multiset(s)
  {
    if s == [] then []
    else
      assert s == s[..|s| - 1] + [s[|s| - 1]];
      InsertDesc(SortDesc(s[..|s| - 1], key), s[|s| - 1], key)
  }

  lemma {:induction false} InsertDescSorted<T>(s: seq<T>, x: T, key: T -> int)
    requires SortedDesc(s, key)
    ensures SortedDesc(InsertDesc(s, x, key), key)
  {
    if s != [] && key(s[|s| - 1]) < key(x) {
      var pre, last := s[..|s| - 1], s[|s| - 1];
      InsertDescSorted(pre, x, key);
      var r' := InsertDesc(pre, x, key);
      forall y | y in r' ensures key(y) >= key(last) {
        assert y in multiset(r');
        if y != x {
          assert y in multiset(pre);
          var i :| 0 <= i < |pre| && pre[i] == y;
          assert s[i] == y;
        }
      }
      forall i, j | 0 <= i < j < |r' + [last]|
        ensures key((r' + [last])[i]) >= key((r' + [last])[j])
      {
        if j == |r'| {
          assert (r' + [last])[i] == r'[i];
          assert r'[i] in r';
        }
      }
    }
  }

  /** The result of `SortDesc` is in descending key order. */
  lemma {:induction false} SortDescSorted<T>(s: seq<T>, key: T -> int)
    ensures SortedDesc(SortDesc(s, key), key)
  {
    if s != [] {
      SortDescSorted(s[..|s| - 1], key);
      InsertDescSorted(SortDesc(s[..|s| - 1], key), s[|s| - 1], key);
    }
  }

  lemma {:induction false} KeyRunAppend<T>(a: seq<T>, b: seq<T>, key: T -> int, k: int)
    ensures KeyRun(a + b, key, k) == KeyRun(a, key, k) + KeyRun(b, key, k)
  {
    if a == [] {
      assert a + b == b;
    } else {
      var head := if key(a[0]) == k then [a[0]] else [];
      assert (a + b)[0] == a[0] && (a + b)[1..] == a[1..] + b;
      assert KeyRun(a + b, key, k) == head + KeyRun(a[1..] + b, key, k);
      KeyRunAppend(a[1..], b, key, k);
      assert head + (KeyRun(a[1..], key, k) + KeyRun(b, key, k)) == (head + KeyRun(a[1..], key, k)) + KeyRun(b, key, k);
    }
  }

  lemma {:induction false} InsertDescRun<T>(s: seq<T>, x: T, key: T -> int, k: int)
    ensures KeyRun(InsertDesc(s, x, key), key, k) == KeyRun(s, key, k) + KeyRun([x], key, k)
  {
    if s == [] {
    } else if key(s[|s| - 1]) >= key(x) {
      KeyRunAppend(s, [x], key, k);
    } else {
      var pre, last := s[..|s| - 1], s[|s| - 1];
      assert s == pre + [last];
      InsertDescRun(pre, x, key, k);
      KeyRunAppend(InsertDesc(pre, x, key), [last], key, k);
      KeyRunAppend(pre, [last], key, k);
      assert KeyRun([x], key, k) == if key(x) == k then [x] else [];
      assert KeyRun([last], key, k) == if key(last) == k then [last] else [];
    }
  }

  /** Stability: for every key, the elements with that key keep their relative order. */
  lemma {:induction false} SortDescStable<T>(s: seq<T>, key: T -> int, k: int)
    ensures KeyRun(SortDesc(s, key), key, k) == KeyRun(s, key, k)
  {
    if s != [] {
      var pre, last := s[..|s| - 1], s[|s| - 1];
      assert s == pre + [last];
      SortDescStable(pre, key, k);
      InsertDescRun(SortDesc(pre, key), last, key, k);
      KeyRunAppend(pre, [last], key, k);
    }
  }

  /** A sequence that is already in descending order is left as it is. */
  lemma {:induction false} SortDescOfSorted<T>(s: seq<T>, key: T -> int)
    requires SortedDesc(s, key)
    ensures SortDesc(s, key) == s
  {
    if s != [] {
      var pre := s[..|s| - 1];
      assert SortedDesc(pre, key);
      SortDescOfSorted(pre, key);
      assert s == pre + [s[|s| - 1]];
    }
  }

  /** Sorting again after appending one element to a sorted list gives the same list as
      sorting the whole sequence once. */
  lemma ResortAfterAppend<T>(s: seq<T>, x: T, key: T -> int)
    ensures SortDesc(SortDesc(s, key) + [x], key) == SortDesc(s + [x], key)
  {
    var sorted := SortDesc(s, key);
    SortDescSorted(s, key);
    SortDescOfSorted(sorted, key);
    assert (sorted + [x])[..|sorted|] == sorted;
    assert (s + [x])[..|s|] == s;
  }

  lemma {:induction false} KeyRunMember<T>(s: seq<T>, key: T -> int, k: int, y: T)
    requires y in KeyRun(s, key, k)
    ensures y in s && key(y) == k
  {
    if s != [] && !(key(s[0]) == k && y == s[0]) {
      KeyRunMember(s[1..], key, k, y);
    }
  }

  lemma KeyRunOfHead<T>(s: seq<T>, key: T -> int)
    requires s != []
    ensures KeyRun(s, key, key(s[0])) != [] && KeyRun(s, key, key(s[0]))[0] == s[0]
  {
  }

  /** Two sequences in descending key order with the same elements per key, in the same
      per-key order, are equal. */
  lemma {:induction false} SortedRunsDetermine<T>(a: seq<T>, b: seq<T>, key: T -> int)
    requires SortedDesc(a, key) && SortedDesc(b, key)
    requires forall k :: KeyRun(a, key, k) == KeyRun(b, key, k)
    ensures a == b
    decreases |a| + |b|
  {
    if a == [] || b == [] {
      if a != [] {
        KeyRunOfHead(a, key);
        assert false;
      } else if b != [] {
        KeyRunOfHead(b, key);
        assert false;
      }
    } else {
      var ka, kb := key(a[0]), key(b[0]);
      assert b[0] in KeyRun(b, key, kb);
      KeyRunMember(a, key, kb, b[0]);
      var i :| 0 <= i < |a| && a[i] == b[0];
      assert ka >= kb;
      assert a[0] in KeyRun(a, key, ka);
      KeyRunMember(b, key, ka, a[0]);
      var j :| 0 <= j < |b| && b[j] == a[0];
      assert kb >= ka;
      assert a[0] == KeyRun(a, key, ka)[0] == KeyRun(b, key, ka)[0] == b[0];
      forall k ensures KeyRun(a[1..], key, k) == KeyRun(b[1..], key, k) {
        var head := if ka == k then [a[0]] else [];
        assert KeyRun(a, key, k) == head + KeyRun(a[1..], key, k);
        assert KeyRun(b, key, k) == head + KeyRun(b[1..], key, k);
        assert KeyRun(a[1..], key, k) == KeyRun(a, key, k)[|head|..];
        assert KeyRun(b[1..], key, k) == KeyRun(b, key, k)[|head|..];
      }
      SortedRunsDetermine(a[1..], b[1..], key);
    }
  }

  /** Any sequence that is in descending key order and keeps the per-key order of `s` is
      `SortDesc(s)`: a stable sort has exactly one possible result. */
  lemma StableSortUnique<T>(s: seq<T>, r: seq<T>, key: T -> int)
    requires SortedDesc(r, key)
    requires forall k :: KeyRun(r, key, k) == KeyRun(s, key, k)
    ensures r == SortDesc(s, key)
  {
    SortDescSorted(s, key);
    forall k ensures KeyRun(r, key, k) == KeyRun(SortDesc(s, key), key, k) {
      SortDescStable(s, key, k);
    }
    SortedRunsDetermine(r, SortDesc(s, key), key);
  }
}
