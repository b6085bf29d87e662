/**
 * Python's `results.sort(key=score, reverse=True)`: a stable sort by descending score.
 * Elements with equal scores keep the order in which they were appended.
 */
module Ranking {

  /** Scores never increase along the list. */
  ghost predicate Descending<T>(xs: seq<T>, key: T -> int) {
    forall i, j :: 0 <= i < j < |xs| ==> key(xs[i]) >= key(xs[j])
  }

  /** The elements scored exactly `k`, in their original order. */
  function WithKey<T>(xs: seq<T>, key: T -> int, k: int): seq<T> {
    if xs == [] then []
    else (if key(xs[0]) == k then [xs[0]] else []) + WithKey(xs[1..], key, k)
  }

  /** Places `x` after every element scored at least as high as `x`. */
  function Insert<T>(xs: seq<T>, x: T, key: T -> int): seq<T> {
    if xs == [] then [x]
    else if key(xs[0]) >= key(x) then [xs[0]] + Insert(xs[1..], x, key)
    else [x] + xs
  }

  /** Stable sort by descending `key`, adding the elements one at a time in their list order. */
  function SortDescending<T>(xs: seq<T>, key: T -> int): seq<T> {
    if xs == [] then []
    else Insert(SortDescending(xs[..|xs| - 1], key), xs[|xs| - 1], key)
  }

  lemma {:induction false} WithKeyConcat<T>(a: seq<T>, b: seq<T>, key: T -> int, k: int)
    ensures WithKey(a + b, key, k) == WithKey(a, key, k) + WithKey(b, key, k)
  {
    if a != [] {
      assert (a + b)[0] == a[0] && (a + b)[1..] == a[1..] + b;
      WithKeyConcat(a[1..], b, key, k);
    } else {
      assert a + b == b;
    }
  }

  lemma {:induction false} WithKeyNone<T>(xs: seq<T>, key: T -> int, k: int)
    requires forall i :: 0 <= i < |xs| ==> key(xs[i]) < k
    ensures WithKey(xs, key, k) == []
  {
    if xs != [] { WithKeyNone(xs[1..], key, k); }
  }

  lemma {:induction false} InsertPermutes<T>(xs: seq<T>, x: T, key: T -> int)
    ensures multiset(Insert(xs, x, key)) == multiset(xs) + multiset{x}
  {
    if xs != [] && key(xs[0]) >= key(x) {
      InsertPermutes(xs[1..], x, key);
      assert xs == [xs[0]] + xs[1..];
    }
  }

  lemma {:induction false} InsertKeepsDescending<T>(xs: seq<T>, x: T, key: T -> int)
    requires Descending(xs, key)
    ensures Descending(Insert(xs, x, key), key)
  {
    if xs != [] && key(xs[0]) >= key(x) {
      var rest := Insert(xs[1..], x, key);
      InsertKeepsDescending(xs[1..], x, key);
      InsertPermutes(xs[1..], x, key);
      forall j | 0 <= j < |rest| ensures key(xs[0]) >= key(rest[j]) {
        assert rest[j] in multiset(rest);
        assert rest[j] in multiset(xs[1..]) || rest[j] == x;
        if rest[j] != x {
          var i :| 0 <= i < |xs[1..]| && xs[1..][i] == rest[j];
          assert xs[i + 1] == rest[j];
        }
      }
    }
  }

  lemma {:induction false} InsertWithKey<T>(xs: seq<T>, x: T, key: T -> int, k: int)
    requires Descending(xs, key)
    ensures WithKey(Insert(xs, x, key), key, k) == WithKey(xs, key, k) + (if key(x) == k then [x] else [])
  {
    if xs == [] {
    } else if key(xs[0]) >= key(x) {
      var tail := xs[1..];
      assert Descending(tail, key) by {
        forall i, j | 0 <= i < j < |tail| ensures key(tail[i]) >= key(tail[j]) {
          assert tail[i] == xs[i + 1] && tail[j] == xs[j + 1];
        }
      }
      InsertWithKey(tail, x, key, k);
      assert ([xs[0]] + Insert(tail, x, key))[1..] == Insert(tail, x, key);
    } else {
      assert ([x] + xs)[1..] == xs;
      if key(x) == k {
        assert forall i :: 0 <= i < |xs| ==> key(xs[i]) < k by {
          forall i | 0 <= i < |xs| ensures key(xs[i]) < k {
            if i > 0 { assert key(xs[0]) >= key(xs[i]); }
          }
        }
        WithKeyNone(xs, key, k);
      }
    }
  }

  /**
   * The sort is correct and stable: scores never increase, nothing is added or lost, and the
   * elements of any one score appear in the same relative order as in the input.
   */
  lemma {:induction false} SortDescendingCorrect<T>(xs: seq<T>, key: T -> int)
    ensures Descending(SortDescending(xs, key), key)
    ensures multiset(SortDescending(xs, key)) == multiset(xs)
    ensures forall k :: WithKey(SortDescending(xs, key), key, k) == WithKey(xs, key, k)
  {
    if xs != [] {
      var init, x := xs[..|xs| - 1], xs[|xs| - 1];
      assert xs == init + [x];
      SortDescendingCorrect(init, key);
      InsertKeepsDescending(SortDescending(init, key), x, key);
      InsertPermutes(SortDescending(init, key), x, key);
      forall k ensures WithKey(SortDescending(xs, key), key, k) == WithKey(xs, key, k) {
        InsertWithKey(SortDescending(init, key), x, key, k);
        WithKeyConcat(init, [x], key, k);
      }
    }
  }
}
