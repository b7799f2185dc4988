/** Orders and sorting, as the operator uses them through Go's `sort` package. */
module Order {

  /** `lt` is irreflexive, transitive and its incomparability is transitive. */
  ghost predicate StrictWeak<T(!new)>(lt: (T, T) -> bool) {
    && (forall a :: !lt(a, a))
    && (forall a, b, c :: lt(a, b) && lt(b, c) ==> lt(a, c))
    && (forall a, b, c :: lt(a, c) ==> lt(a, b) || lt(b, c))
  }

  /** Any two different elements of `xs` are ordered by `lt`. */
  ghost predicate TotalOn<T>(xs: seq<T>, lt: (T, T) -> bool) {
    forall x, y :: x in xs && y in xs && x != y ==> lt(x, y) || lt(y, x)
  }

  /** No later element is below an earlier one. */
  ghost predicate Sorted<T>(xs: seq<T>, lt: (T, T) -> bool) {
    forall i, j :: 0 <= i < j < |xs| ==> !lt(xs[j], xs[i])
  }

  ghost predicate StrictlySorted<T>(xs: seq<T>, lt: (T, T) -> bool) {
    forall i, j :: 0 <= i < j < |xs| ==> lt(xs[i], xs[j])
  }

  ghost predicate Distinct<T>(xs: seq<T>) {
    forall i, j :: 0 <= i < j < |xs| ==> xs[i] != xs[j]
  }

  function Insert<T>(x: T, xs: seq<T>, lt: (T, T) -> bool): seq<T> {
    if xs != [] && lt(xs[0], x) then [xs[0]] + Insert(x, xs[1..], lt) else [x] + xs
  }

  /** A stable sort; where Go's sort is unstable, callers below never depend on ties. */
  function Sort<T>(xs: seq<T>, lt: (T, T) -> bool): seq<T> {
    if xs == [] then [] else Insert(xs[0], Sort(xs[1..], lt), lt)
  }

  lemma {:induction false} InsertMultiset<T>(x: T, xs: seq<T>, lt: (T, T) -> bool)
    ensures multiset(Insert(x, xs, lt)) == multiset(xs) + multiset{x}
  {
    if xs != [] && lt(xs[0], x) {
      InsertMultiset(x, xs[1..], lt);
      assert xs == [xs[0]] + xs[1..];
    }
  }

  lemma {:induction false} SortMultiset<T>(xs: seq<T>, lt: (T, T) -> bool)
    ensures multiset(Sort(xs, lt)) == multiset(xs)
    ensures |Sort(xs, lt)| == |xs|
  {
    if xs != [] {
      SortMultiset(xs[1..], lt);
      InsertMultiset(xs[0], Sort(xs[1..], lt), lt);
      assert xs == [xs[0]] + xs[1..];
      assert |multiset(Sort(xs, lt))| == |multiset(xs)|;
    }
  }

  lemma MultisetMembers<T>(xs: seq<T>, ys: seq<T>)
    requires multiset(xs) == multiset(ys)
    ensures forall x :: x in xs <==> x in ys
    ensures |xs| == |ys|
  {
    forall x ensures x in xs <==> x in ys {
      assert x in xs <==> x in multiset(xs);
      assert x in ys <==> x in multiset(ys);
    }
    assert |multiset(xs)| == |xs| && |multiset(ys)| == |ys|;
  }

  lemma SortMembers<T>(xs: seq<T>, lt: (T, T) -> bool)
    ensures forall x :: x in Sort(xs, lt) <==> x in xs
  {
    SortMultiset(xs, lt);
    MultisetMembers(Sort(xs, lt), xs);
  }

  lemma {:induction false} InsertSorted<T(!new)>(x: T, xs: seq<T>, lt: (T, T) -> bool)
    requires StrictWeak(lt) && Sorted(xs, lt)
    ensures Sorted(Insert(x, xs, lt), lt)
  {
    if xs != [] && lt(xs[0], x) {
      InsertSorted(x, xs[1..], lt);
      InsertMultiset(x, xs[1..], lt);
      var t := Insert(x, xs[1..], lt);
      forall k | 0 <= k < |t| ensures !lt(t[k], xs[0]) {
        assert t[k] in multiset(t);
        assert t[k] == x || t[k] in xs[1..];
      }
    }
  }

  lemma {:induction false} SortSorted<T(!new)>(xs: seq<T>, lt: (T, T) -> bool)
    requires StrictWeak(lt)
    ensures Sorted(Sort(xs, lt), lt)
  {
    if xs != [] {
      SortSorted(xs[1..], lt);
      InsertSorted(xs[0], Sort(xs[1..], lt), lt);
    }
  }

  lemma HeadsEqual<T>(xs: seq<T>, ys: seq<T>, lt: (T, T) -> bool)
    requires Sorted(xs, lt) && Sorted(ys, lt) && TotalOn(xs, lt)
    requires xs != [] && ys != [] && xs[0] in ys && ys[0] in xs
    ensures xs[0] == ys[0]
  {
    var i :| 0 <= i < |xs| && xs[i] == ys[0];
    var j :| 0 <= j < |ys| && ys[j] == xs[0];
    assert i == 0 || !lt(xs[i], xs[0]);
    assert j == 0 || !lt(ys[j], ys[0]);
  }

  lemma TailMultiset<T>(xs: seq<T>)
    requires xs != []
    ensures multiset(xs[1..]) == multiset(xs) - multiset{xs[0]}
  {
    assert xs == [xs[0]] + xs[1..];
  }

  /** A sorted arrangement of a multiset on which the order is total is unique. */
  lemma {:induction false} SortedUnique<T>(xs: seq<T>, ys: seq<T>, lt: (T, T) -> bool)
    requires Sorted(xs, lt) && Sorted(ys, lt)
    requires multiset(xs) == multiset(ys)
    requires TotalOn(xs, lt)
    ensures xs == ys
  {
    MultisetMembers(xs, ys);
    if xs != [] {
      HeadsEqual(xs, ys, lt);
      TailMultiset(xs);
      TailMultiset(ys);
      SortedUnique(xs[1..], ys[1..], lt);
      assert xs == [xs[0]] + xs[1..] && ys == [ys[0]] + ys[1..];
    }
  }

  /** Sorting does not depend on the order of its input when the order is total on it. */
  lemma SortPermutation<T(!new)>(xs: seq<T>, ys: seq<T>, lt: (T, T) -> bool)
    requires StrictWeak(lt) && multiset(xs) == multiset(ys) && TotalOn(xs, lt)
    ensures Sort(xs, lt) == Sort(ys, lt)
  {
    SortMultiset(xs, lt);
    SortMultiset(ys, lt);
    SortSorted(xs, lt);
    SortSorted(ys, lt);
    SortMembers(xs, lt);
    SortedUnique(Sort(xs, lt), Sort(ys, lt), lt);
  }

  lemma DistinctFromMultiset<T>(xs: seq<T>, ys: seq<T>)
    requires multiset(xs) == multiset(ys) && Distinct(xs)
    ensures Distinct(ys)
  {
    MultisetMembers(xs, ys);
    forall i, j | 0 <= i < j < |ys| ensures ys[i] != ys[j] {
      if ys[i] == ys[j] {
        var x := ys[i];
        assert ys == ys[..i] + [x] + ys[i + 1..j] + [x] + ys[j + 1..];
        assert multiset(ys)[x] >= 2;
        DistinctCount(xs, x);
      }
    }
  }

  lemma {:induction false} DistinctCount<T>(xs: seq<T>, x: T)
    requires Distinct(xs)
    ensures multiset(xs)[x] <= 1
  {
    if xs != [] {
      DistinctCount(xs[1..], x);
      assert xs == [xs[0]] + xs[1..];
      if xs[0] == x { assert x !in xs[1..]; }
    }
  }

  lemma SortStrict<T(!new)>(xs: seq<T>, lt: (T, T) -> bool)
    requires StrictWeak(lt) && TotalOn(xs, lt) && Distinct(xs)
    ensures StrictlySorted(Sort(xs, lt), lt)
  {
    SortSorted(xs, lt);
    SortMultiset(xs, lt);
    SortMembers(xs, lt);
    DistinctFromMultiset(xs, Sort(xs, lt));
  }

  /** Strictly sorted sequences with the same members are the same sequence. */
  lemma {:induction false} StrictlySortedUnique<T(!new)>(xs: seq<T>, ys: seq<T>, lt: (T, T) -> bool)
    requires StrictWeak(lt)
    requires StrictlySorted(xs, lt) && StrictlySorted(ys, lt)
    requires forall x :: x in xs <==> x in ys
    ensures xs == ys
  {
    assert xs != [] ==> xs[0] in ys;
    assert ys != [] ==> ys[0] in xs;
    if xs != [] {
      var x, y := xs[0], ys[0];
      assert y in xs;
      assert x == y;
      forall z ensures z in xs[1..] <==> z in ys[1..] {
        assert z in xs <==> z == x || z in xs[1..];
        assert z in ys <==> z == y || z in ys[1..];
        assert x !in xs[1..] && y !in ys[1..];
      }
      StrictlySortedUnique(xs[1..], ys[1..], lt);
    }
  }

  /** Among the elements with a property some element is least. */
  lemma {:induction false} LeastExists<T(!new)>(xs: seq<T>, p: T -> bool, lt: (T, T) -> bool, k: nat) returns (m: nat)
    requires StrictWeak(lt) && k < |xs| && p(xs[k])
    ensures m < |xs| && p(xs[m]) && !lt(xs[k], xs[m])
    ensures forall i :: 0 <= i < |xs| && p(xs[i]) ==> !lt(xs[i], xs[m])
  {
    m := k;
    var i := 0;
    while i < |xs|
      invariant 0 <= i <= |xs| && m < |xs| && p(xs[m]) && !lt(xs[k], xs[m])
      invariant forall j :: 0 <= j < i && p(xs[j]) ==> !lt(xs[j], xs[m])
    {
      if p(xs[i]) && lt(xs[i], xs[m]) { m := i; }
      i := i + 1;
    }
  }

  // ---- folding a run of steps ----

  function Fold<S, A>(f: (S, A) -> S, s: S, xs: seq<A>): S {
    if xs == [] then s else f(Fold(f, s, xs[..|xs| - 1]), xs[|xs| - 1])
  }

  lemma {:induction false} FoldAppend<S, A>(f: (S, A) -> S, s: S, xs: seq<A>, ys: seq<A>)
    ensures Fold(f, s, xs + ys) == Fold(f, Fold(f, s, xs), ys)
  {
    var all := xs + ys;
    if ys == [] {
      assert all == xs;
    } else {
      var k := |ys| - 1;
      FoldAppend(f, s, xs, ys[..k]);
      assert all[..|all| - 1] == xs + ys[..k] && all[|all| - 1] == ys[k];
    }
  }
}
