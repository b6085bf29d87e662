/**
 * Python's ordering of strings (code point by code point, a proper prefix first)
 * and `sorted(s)` of a set of strings: the one strictly ascending list of its elements.
 */
module Order {
  import opened Lists

  /** `a < b` on Python strings. */
  predicate Less(a: string, b: string) {
    if a == [] then b != []
    else b != [] && (a[0] < b[0] || (a[0] == b[0] && Less(a[1..], b[1..])))
  }

  lemma {:induction false} LessIrreflexive(a: string)
    ensures !Less(a, a)
  {
    if a != [] { LessIrreflexive(a[1..]); }
  }

  lemma {:induction false} LessTransitive(a: string, b: string, c: string)
    requires Less(a, b) && Less(b, c)
    ensures Less(a, c)
  {
    if a != [] && b != [] && c != [] && a[0] == b[0] == c[0] {
      LessTransitive(a[1..], b[1..], c[1..]);
    }
  }

  lemma {:induction false} LessTotal(a: string, b: string)
    ensures a == b || Less(a, b) || Less(b, a)
  {
    if a != [] && b != [] && a[0] == b[0] {
      LessTotal(a[1..], b[1..]);
      if a[1..] == b[1..] {
        assert a == [a[0]] + a[1..] && b == [b[0]] + b[1..];
      }
    }
  }

  lemma LessAsymmetric(a: string, b: string)
    ensures !(Less(a, b) && Less(b, a))
  {
    if Less(a, b) && Less(b, a) {
      LessTransitive(a, b, a);
      LessIrreflexive(a);
    }
  }

  /** Strictly ascending, hence also free of duplicates. */
  predicate StrictlySorted(xs: seq<string>) {
    forall i, j :: 0 <= i < j < |xs| ==> Less(xs[i], xs[j])
  }

  /** `m` is the smallest element of `s`. */
  predicate IsLeast(m: string, s: set<string>) {
    m in s && forall y :: y in s && y != m ==> Less(m, y)
  }

  lemma {:induction false} LeastExists(s: set<string>)
    requires s != {}
    ensures exists m :: IsLeast(m, s)
    decreases |s|
  {
    var x :| x in s;
    if s - {x} == {} {
      assert s == {x};
      assert IsLeast(x, s);
    } else {
      LeastExists(s - {x});
      var m :| IsLeast(m, s - {x});
      LessTotal(x, m);
      if Less(x, m) {
        forall y | y in s && y != x ensures Less(x, y) {
          if y != m { LessTransitive(x, m, y); }
        }
        assert IsLeast(x, s);
      } else {
        assert IsLeast(m, s);
      }
    }
  }

  lemma LeastUnique(s: set<string>)
    ensures forall m1, m2 :: IsLeast(m1, s) && IsLeast(m2, s) ==> m1 == m2
  {
    forall m1, m2 | IsLeast(m1, s) && IsLeast(m2, s) ensures m1 == m2 {
      if m1 != m2 { LessAsymmetric(m1, m2); }
    }
  }

  /** Python's `sorted(s)` for a set of strings. */
  function SortedOf(s: set<string>): (r: seq<string>)
    ensures StrictlySorted(r)
    ensures Elems(r) == s && |r| == |s|
    decreases |s|
  {
    if s == {} then []
    else
      LeastExists(s);
      LeastUnique(s);
      var m :| IsLeast(m, s);
      var rest := SortedOf(s - {m});
      PrependLeast(m, s, rest);
      [m] + rest
  }

  /** Putting the least element of `s` before a sorted list of the others sorts `s`. */
  lemma PrependLeast(m: string, s: set<string>, rest: seq<string>)
    requires IsLeast(m, s) && StrictlySorted(rest) && Elems(rest) == s - {m} && |rest| == |s - {m}|
    ensures StrictlySorted([m] + rest) && Elems([m] + rest) == s && |[m] + rest| == |s|
  {
    assert forall j :: 0 <= j < |rest| ==> Less(m, rest[j]) by {
      forall j | 0 <= j < |rest| ensures Less(m, rest[j]) {
        assert rest[j] in Elems(rest);
      }
    }
    PrependSmaller(m, rest);
    assert Elems([m] + rest) == {m} + Elems(rest) by {
      assert forall y :: y in [m] + rest <==> y == m || y in rest;
    }
  }

  /** A string smaller than every element of a strictly ascending list can go before it. */
  lemma PrependSmaller(m: string, rest: seq<string>)
    requires StrictlySorted(rest) && forall j :: 0 <= j < |rest| ==> Less(m, rest[j])
    ensures StrictlySorted([m] + rest)
  {
    var r := [m] + rest;
    forall i, j | 0 <= i < j < |r| ensures Less(r[i], r[j]) {
      assert r[j] == rest[j - 1];
      if i > 0 {
        assert r[i] == rest[i - 1];
      }
    }
  }

  /** A string is in the sorted list exactly when it is in the set. */
  lemma SortedOfMembers(s: set<string>)
    ensures forall k :: k in SortedOf(s) <==> k in s
  {
    var r := SortedOf(s);
    forall k ensures k in r <==> k in s {
      assert k in r <==> k in Elems(r);
    }
  }

  /** A strictly ascending list is determined by its elements: `sorted` has only one possible answer. */
  lemma {:induction false} SortedUnique(xs: seq<string>, ys: seq<string>)
    requires StrictlySorted(xs) && StrictlySorted(ys) && Elems(xs) == Elems(ys)
    ensures xs == ys
  {
    ElemsEmpty(xs);
    ElemsEmpty(ys);
    if xs != [] && ys != [] {
      assert xs[0] in Elems(ys) && ys[0] in Elems(xs);
      if xs[0] != ys[0] {
        var i :| 0 <= i < |ys| && ys[i] == xs[0];
        var j :| 0 <= j < |xs| && xs[j] == ys[0];
        assert Less(ys[0], xs[0]) && Less(xs[0], ys[0]);
        LessAsymmetric(xs[0], ys[0]);
      }
      assert Elems(xs[1..]) == Elems(ys[1..]) by {
        forall x | x in Elems(xs[1..]) ensures x in Elems(ys[1..]) {
          var i :| 1 <= i < |xs| && xs[i] == x;
          LessIrreflexive(xs[0]);
          assert x in Elems(ys) && x != ys[0];
        }
        forall y | y in Elems(ys[1..]) ensures y in Elems(xs[1..]) {
          var i :| 1 <= i < |ys| && ys[i] == y;
          LessIrreflexive(ys[0]);
          assert y in Elems(xs) && y != xs[0];
        }
      }
      SortedUnique(xs[1..], ys[1..]);
      assert xs == [xs[0]] + xs[1..] && ys == [ys[0]] + ys[1..];
    }
  }
}
