/** Small facts about sequences used as Python lists. */
module Lists {
  import opened Wrappers

  /** The elements of a list, as Python's `set(xs)`. */
  function Elems<T>(xs: seq<T>): set<T> {
    set x | x in xs
  }

  lemma ElemsEmpty<T>(xs: seq<T>)
    ensures Elems(xs) == {} <==> xs == []
  {
    if xs != [] { assert xs[0] in Elems(xs); }
  }

  /** No element occurs twice. */
  predicate Distinct<T(==)>(xs: seq<T>) {
    forall i, j :: 0 <= i < j < |xs| ==> xs[i] != xs[j]
  }

  /** Dropping the last element of a list without repetitions leaves one, without that element. */
  lemma DistinctInit<T>(xs: seq<T>)
    requires Distinct(xs) && xs != []
    ensures Distinct(xs[..|xs| - 1]) && xs[|xs| - 1] !in xs[..|xs| - 1]
  {
  }

  /** Appending an element adds exactly that element to the set of elements. */
  lemma ElemsSnoc<T>(xs: seq<T>, x: T)
    ensures Elems(xs + [x]) == Elems(xs) + {x}
  {
    assert forall y :: y in xs + [x] <==> y in xs || y == x;
  }

  /** Appending a new element keeps a list free of repetitions. */
  lemma DistinctSnoc<T>(xs: seq<T>, x: T)
    requires Distinct(xs) && x !in xs
    ensures Distinct(xs + [x])
  {
    assert forall i :: 0 <= i < |xs| ==> (xs + [x])[i] == xs[i];
  }

  /** The union of `f(x)` over the elements `x` of a list, gathered left to right. */
  function UnionOf<A, B>(xs: seq<A>, f: A -> set<B>): set<B> {
    if xs == [] then {} else UnionOf(xs[..|xs| - 1], f) + f(xs[|xs| - 1])
  }

  /** Something is in the union exactly when it is in `f(x)` for some element `x`. */
  lemma {:induction false} UnionOfMember<A, B>(xs: seq<A>, f: A -> set<B>, y: B)
    ensures y in UnionOf(xs, f) <==> exists x :: x in xs && y in f(x)
  {
    if xs != [] {
      var init, last := xs[..|xs| - 1], xs[|xs| - 1];
      UnionOfMember(init, f, y);
      assert xs == init + [last];
    }
  }

  /** The values `f` gives for the elements of a list, skipping those it gives none for, in order. */
  function FilterMap<A, B>(xs: seq<A>, f: A -> Option<B>): seq<B> {
    if xs == [] then []
    else FilterMap(xs[..|xs| - 1], f) + (if f(xs[|xs| - 1]).Some? then [f(xs[|xs| - 1]).value] else [])
  }

  lemma FilterMapSnoc<A, B>(xs: seq<A>, x: A, f: A -> Option<B>)
    ensures FilterMap(xs + [x], f) == FilterMap(xs, f) + (if f(x).Some? then [f(x).value] else [])
  {
    assert (xs + [x])[..|xs|] == xs;
  }

  lemma {:induction false} FilterMapConcat<A, B>(xs: seq<A>, ys: seq<A>, f: A -> Option<B>)
    ensures FilterMap(xs + ys, f) == FilterMap(xs, f) + FilterMap(ys, f)
  {
    if ys == [] {
      assert xs + ys == xs;
    } else {
      assert (xs + ys)[..|xs + ys| - 1] == xs + ys[..|ys| - 1];
      FilterMapConcat(xs, ys[..|ys| - 1], f);
    }
  }

  /** Every value kept is the value of some element, and every element's value is kept. */
  lemma {:induction false} FilterMapSpec<A, B>(xs: seq<A>, f: A -> Option<B>)
    ensures forall y :: y in FilterMap(xs, f) ==> exists k :: 0 <= k < |xs| && f(xs[k]) == Some(y)
    ensures forall k :: 0 <= k < |xs| && f(xs[k]).Some? ==> f(xs[k]).value in FilterMap(xs, f)
  {
    if xs != [] {
      var init := xs[..|xs| - 1];
      FilterMapSpec(init, f);
      forall y | y in FilterMap(xs, f) ensures exists k :: 0 <= k < |xs| && f(xs[k]) == Some(y) {
        if y in FilterMap(init, f) {
          var k :| 0 <= k < |init| && f(init[k]) == Some(y);
          assert xs[k] == init[k];
        } else {
          assert f(xs[|xs| - 1]) == Some(y);
        }
      }
      forall k | 0 <= k < |xs| && f(xs[k]).Some? ensures f(xs[k]).value in FilterMap(xs, f) {
        if k < |init| {
          assert xs[k] == init[k];
        }
      }
    }
  }

  function Max(a: int, b: int): int {
    if a >= b then a else b
  }

  /** Python's `max(xs)` on a non-empty list of integers. */
  function MaxOf(xs: seq<int>): (m: int)
    requires |xs| > 0
    ensures m in xs
    ensures forall i :: 0 <= i < |xs| ==> xs[i] <= m
  {
    if |xs| == 1 then xs[0] else Max(MaxOf(xs[..|xs| - 1]), xs[|xs| - 1])
  }

  /** Appending one more element extends the maximum in the obvious way. */
  lemma MaxOfSnoc(xs: seq<int>, x: int)
    requires |xs| > 0
    ensures MaxOf(xs + [x]) == Max(MaxOf(xs), x)
  {
    assert (xs + [x])[..|xs|] == xs;
  }

  /** The maximum of a head and a list of further values is one of them and bounds them all. */
  lemma MaxOfHead(head: int, rest: seq<int>)
    ensures MaxOf([head] + rest) >= head
    ensures forall i :: 0 <= i < |rest| ==> MaxOf([head] + rest) >= rest[i]
    ensures MaxOf([head] + rest) == head || exists i :: 0 <= i < |rest| && MaxOf([head] + rest) == rest[i]
  {
    var all := [head] + rest;
    var m := MaxOf(all);
    assert all[0] == head;
    forall i | 0 <= i < |rest| ensures m >= rest[i] { assert all[i + 1] == rest[i]; }
    var j :| 0 <= j < |all| && all[j] == m;
    if j > 0 { assert rest[j - 1] == m; }
  }
}
