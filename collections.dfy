/** Generic facts about sequences, sets and maps, kept apart from the
    string-specific definitions so that the solver reasons about them abstractly. */
module Collections {
  import opened Wrappers

  lemma SliceSnoc<T>(s: seq<T>, j: nat)
    requires j < |s|
    ensures s[..j + 1] == s[..j] + [s[j]]
  {
  }

  lemma ConcatAssoc<T>(a: seq<T>, b: seq<T>, c: seq<T>)
    ensures a + (b + c) == (a + b) + c
  {
  }

  lemma MapUpdateTwice<K, V>(m: map<K, V>, k: K, a: V, b: V)
    ensures m[k := a][k := b] == m[k := b]
  {
  }

  lemma SlicePrefix<T>(s: seq<T>, j: nat)
    requires j < |s|
    ensures s[..j + 1][..j] == s[..j] && s[..j + 1][j] == s[j]
  {
  }

  lemma SliceOfConcat<T>(a: seq<T>, b: seq<T>)
    ensures (a + b)[|a|..] == b && (a + b)[..|a|] == a
  {
  }

  /** The elements of `xs` that satisfy `f`, as a set. */
  function FilterSet<T>(xs: seq<T>, f: T -> bool): (r: set<T>)
    decreases |xs|
  {
    if xs == [] then {}
    else FilterSet(xs[..|xs| - 1], f) + (if f(xs[|xs| - 1]) then {xs[|xs| - 1]} else {})
  }

  lemma {:induction false} FilterSetMembers<T>(xs: seq<T>, f: T -> bool, x: T)
    ensures x in FilterSet(xs, f) <==> x in xs && f(x)
    decreases |xs|
  {
    if xs != [] {
      FilterSetMembers(xs[..|xs| - 1], f, x);
      assert xs == xs[..|xs| - 1] + [xs[|xs| - 1]];
    }
  }

  lemma FilterSetSnoc<T>(xs: seq<T>, f: T -> bool, x: T)
    ensures FilterSet(xs + [x], f) == FilterSet(xs, f) + (if f(x) then {x} else {})
  {
    assert (xs + [x])[..|xs|] == xs;
  }

  /** `xs[:n]`. */
  function Take<T>(xs: seq<T>, n: nat): (r: seq<T>)
    ensures |r| == if |xs| <= n then |xs| else n
    ensures r == xs[..|r|]
  {
    if |xs| <= n then xs else xs[..n]
  }

  lemma TakeSnoc<T>(xs: seq<T>, x: T, n: nat)
    ensures Take(xs + [x], n) == if |Take(xs, n)| < n then Take(xs, n) + [x] else Take(xs, n)
  {
    if |xs| < n {
      assert Take(xs + [x], n) == xs + [x];
    } else {
      assert (xs + [x])[..n] == xs[..n];
    }
  }

  /** A prefix of a sorted list is sorted and holds only its elements. */
  lemma TakeSorted<T>(xs: seq<T>, n: nat, less: (T, T) -> bool)
    requires SortedBy(xs, less)
    ensures SortedBy(Take(xs, n), less)
    ensures forall x :: x in Take(xs, n) ==> x in xs
  {
    var r := Take(xs, n);
    forall i, j | 0 <= i < j < |r| ensures !less(r[j], r[i]) {
      assert r[i] == xs[i] && r[j] == xs[j];
    }
  }

  /** Cutting a sorted list keeps its first elements: nothing left out goes
      before anything kept. */
  lemma TakeSortedKeepsFirst<T>(xs: seq<T>, n: nat, less: (T, T) -> bool)
    requires SortedBy(xs, less)
    ensures forall x, i :: x in xs && x !in Take(xs, n) && 0 <= i < |Take(xs, n)| ==> !less(x, Take(xs, n)[i])
  {
    var r := Take(xs, n);
    forall x, i | x in xs && x !in r && 0 <= i < |r| ensures !less(x, r[i]) {
      var k :| 0 <= k < |xs| && xs[k] == x;
      assert r[i] == xs[i];
    }
  }

  /** `less` is a strict partial order: irreflexive and transitive. */
  ghost predicate StrictOrder<T(!new)>(less: (T, T) -> bool) {
    (forall a :: !less(a, a))
    && (forall a, b, c :: less(a, b) && less(b, c) ==> less(a, c))
  }

  /** No element is `less` than one placed before it. */
  ghost predicate SortedBy<T>(xs: seq<T>, less: (T, T) -> bool) {
    forall i, j :: 0 <= i < j < |xs| ==> !less(xs[j], xs[i])
  }

  /** Insert `x` after every element it does not precede (so equal keys keep their order). */
  function InsertBy<T(!new)>(x: T, xs: seq<T>, less: (T, T) -> bool): (r: seq<T>)
    requires StrictOrder(less) && SortedBy(xs, less)
    ensures multiset(r) == multiset(xs) + multiset{x}
    ensures SortedBy(r, less)
  {
    if xs == [] then [x]
    else if less(x, xs[0]) then
      assert forall j :: 0 <= j < |xs| ==> !less(xs[j], x) by {
        forall j | 0 <= j < |xs| ensures !less(xs[j], x) {
          if j > 0 { assert !less(xs[j], xs[0]); }
        }
      }
      [x] + xs
    else
      var rest := InsertBy(x, xs[1..], less);
      assert xs == [xs[0]] + xs[1..];
      assert forall j :: 0 <= j < |rest| ==> !less(rest[j], xs[0]) by {
        forall j | 0 <= j < |rest| ensures !less(rest[j], xs[0]) {
          assert rest[j] in multiset(rest);
          if rest[j] != x {
            assert rest[j] in multiset(xs[1..]);
            var k :| 0 <= k < |xs[1..]| && xs[1..][k] == rest[j];
            assert !less(xs[k + 1], xs[0]);
          }
        }
      }
      [xs[0]] + rest
  }

  /** A stable insertion sort: a sorted permutation of `xs`. */
  function SortBy<T(!new)>(xs: seq<T>, less: (T, T) -> bool): (r: seq<T>)
    requires StrictOrder(less)
    ensures multiset(r) == multiset(xs)
    ensures SortedBy(r, less)
    decreases |xs|
  {
    if xs == [] then []
    else
      assert xs == xs[..|xs| - 1] + [xs[|xs| - 1]];
      InsertBy(xs[|xs| - 1], SortBy(xs[..|xs| - 1], less), less)
  }

  /** An element no earlier one follows goes at the end. */
  lemma {:induction false} InsertAfterAll<T(!new)>(x: T, xs: seq<T>, less: (T, T) -> bool)
    requires StrictOrder(less) && SortedBy(xs, less)
    requires forall k :: 0 <= k < |xs| ==> !less(x, xs[k])
    ensures InsertBy(x, xs, less) == xs + [x]
    decreases |xs|
  {
    if xs != [] {
      InsertAfterAll(x, xs[1..], less);
      assert xs == [xs[0]] + xs[1..];
    }
  }

  /** Sorting what is already sorted changes nothing, equal keys included. */
  lemma {:induction false} SortOfSorted<T(!new)>(xs: seq<T>, less: (T, T) -> bool)
    requires StrictOrder(less) && SortedBy(xs, less)
    ensures SortBy(xs, less) == xs
    decreases |xs|
  {
    if xs != [] {
      var init, last := xs[..|xs| - 1], xs[|xs| - 1];
      assert SortedBy(init, less);
      SortOfSorted(init, less);
      InsertAfterAll(last, init, less);
      assert init + [last] == xs;
    }
  }

  /** Two sorted arrangements of the same elements are equal when `less` orders
      every two different elements: sorting then leaves no choice. */
  lemma {:induction false} SortedUnique<T>(a: seq<T>, b: seq<T>, less: (T, T) -> bool)
    requires forall x, y :: x in a && y in a && x != y ==> less(x, y) || less(y, x)
    requires SortedBy(a, less) && SortedBy(b, less) && multiset(a) == multiset(b)
    ensures a == b
    decreases |a|
  {
    assert |a| == |multiset(a)| == |multiset(b)| == |b|;
    if a != [] {
      SortedHeads(a, b, less);
      TailsAgree(a, b);
      SortedUnique(a[1..], b[1..], less);
      assert a == [a[0]] + a[1..] && b == [b[0]] + b[1..];
    }
  }

  lemma SortedHeads<T>(a: seq<T>, b: seq<T>, less: (T, T) -> bool)
    requires a != [] && b != []
    requires forall x, y :: x in a && y in a && x != y ==> less(x, y) || less(y, x)
    requires SortedBy(a, less) && SortedBy(b, less) && multiset(a) == multiset(b)
    ensures a[0] == b[0]
  {
    assert b[0] in multiset(a) && a[0] in multiset(b);
    var j :| 0 <= j < |a| && a[j] == b[0];
    var k :| 0 <= k < |b| && b[k] == a[0];
  }

  lemma TailsAgree<T>(a: seq<T>, b: seq<T>)
    requires a != [] && b != [] && a[0] == b[0] && multiset(a) == multiset(b)
    ensures multiset(a[1..]) == multiset(b[1..])
  {
    assert a == [a[0]] + a[1..] && b == [b[0]] + b[1..];
    assert multiset(a) == multiset{a[0]} + multiset(a[1..]);
    assert multiset(b) == multiset{a[0]} + multiset(b[1..]);
    assert multiset(a[1..]) == multiset(a) - multiset{a[0]};
    assert multiset(b[1..]) == multiset(b) - multiset{a[0]};
  }

  /** The elements of `xs` that satisfy `f`, in order. */
  function Filter<T>(xs: seq<T>, f: T -> bool): (r: seq<T>)
    ensures |r| <= |xs|
    ensures forall k :: 0 <= k < |r| ==> f(r[k]) && r[k] in xs
    ensures forall x :: x in xs && f(x) ==> x in r
    decreases |xs|
  {
    if xs == [] then []
    else
      var init := xs[..|xs| - 1];
      var r := Filter(init, f) + (if f(xs[|xs| - 1]) then [xs[|xs| - 1]] else []);
      assert forall x :: x in xs ==> x in init || x == xs[|xs| - 1] by {
        assert xs == init + [xs[|xs| - 1]];
      }
      r
  }
  /** `f` applied to every element of `xs`, built from the back the way a loop appends. */
  function MapSeq<A, B>(f: A -> B, xs: seq<A>): seq<B>
    decreases |xs|
  {
    if xs == [] then [] else MapSeq(f, xs[..|xs| - 1]) + [f(xs[|xs| - 1])]
  }

  lemma {:induction false} MapSeqLength<A, B>(f: A -> B, xs: seq<A>)
    ensures |MapSeq(f, xs)| == |xs|
    decreases |xs|
  {
    if xs != [] {
      MapSeqLength(f, xs[..|xs| - 1]);
    }
  }

  lemma {:induction false} MapSeqAt<A, B>(f: A -> B, xs: seq<A>, k: nat)
    requires k < |xs|
    ensures |MapSeq(f, xs)| == |xs| && MapSeq(f, xs)[k] == f(xs[k])
    decreases |xs|
  {
    var init := xs[..|xs| - 1];
    MapSeqLength(f, init);
    if k < |init| {
      MapSeqAt(f, init, k);
    }
  }

  lemma MapSeqSnoc<A, B>(f: A -> B, xs: seq<A>, x: A)
    ensures MapSeq(f, xs + [x]) == MapSeq(f, xs) + [f(x)]
  {
    assert (xs + [x])[..|xs|] == xs;
  }

  lemma {:induction false} MapSeqConcat<A, B>(f: A -> B, a: seq<A>, b: seq<A>)
    ensures MapSeq(f, a + b) == MapSeq(f, a) + MapSeq(f, b)
    decreases |b|
  {
    if b == [] {
      assert a + b == a;
    } else {
      var init := b[..|b| - 1];
      assert a + b == (a + init) + [b[|b| - 1]];
      MapSeqSnoc(f, a + init, b[|b| - 1]);
      MapSeqConcat(f, a, init);
    }
  }
  predicate Distinct<T(==)>(xs: seq<T>) {
    forall i, j :: 0 <= i < j < |xs| ==> xs[i] != xs[j]
  }

  function Elems<T(==)>(xs: seq<T>): set<T> {
    set x | x in xs
  }

  /** A list without repeats has as many elements as its set. */
  lemma {:induction false} DistinctCard<T>(xs: seq<T>)
    requires Distinct(xs)
    ensures |Elems(xs)| == |xs|
    decreases |xs|
  {
    if xs != [] {
      var init, last := xs[..|xs| - 1], xs[|xs| - 1];
      DistinctCard(init);
      assert Elems(xs) == Elems(init) + {last} by {
        assert xs == init + [last];
      }
      forall x | x in init ensures x != last {
        var i :| 0 <= i < |init| && init[i] == x;
        assert xs[i] == x;
      }
    }
  }
  /** A subset is no larger than the set. */
  lemma {:induction false} SubsetCard<T>(a: set<T>, b: set<T>)
    requires a <= b
    ensures |a| <= |b|
    decreases |a|
  {
    if x :| x in a {
      SubsetCard(a - {x}, b - {x});
    }
  }

  lemma CardDiff<T>(p: set<T>, b: set<T>)
    requires b <= p
    ensures |p - b| == |p| - |b|
  {
    assert p == (p - b) + b && (p - b) * b == {};
  }

  /** The first index in `from..last` where `f` gives a value, with that value. */
  function Leftmost<T>(f: nat -> Option<T>, from: nat, last: nat): (r: Option<(nat, T)>)
    requires from <= last
    ensures r.Some? ==> from <= r.value.0 <= last && f(r.value.0) == Some(r.value.1)
    ensures r.Some? ==> forall j :: from <= j < r.value.0 ==> f(j).None?
    ensures r.None? ==> forall j :: from <= j <= last ==> f(j).None?
    decreases last - from
  {
    match f(from)
    case Some(v) => Some((from, v))
    case None => if from == last then None else Leftmost(f, from + 1, last)
  }

  /** A permutation of a list without repeats has none. */
  lemma DistinctPermutation<T>(xs: seq<T>, ys: seq<T>)
    requires Distinct(xs) && multiset(xs) == multiset(ys)
    ensures Distinct(ys) && forall y :: y in ys <==> y in xs
  {
    forall y ensures y in ys <==> y in xs {
      assert y in ys <==> y in multiset(ys);
      assert y in xs <==> y in multiset(xs);
    }
    forall i, j | 0 <= i < j < |ys| ensures ys[i] != ys[j] {
      if ys[i] == ys[j] {
        var y := ys[i];
        assert multiset(ys)[y] >= 2 by {
          assert ys == ys[..i] + [y] + ys[i + 1..j] + [y] + ys[j + 1..];
        }
        DistinctCount(xs, y);
        assert false;
      }
    }
  }

  lemma {:induction false} DistinctCount<T>(xs: seq<T>, y: T)
    requires Distinct(xs)
    ensures multiset(xs)[y] <= 1
    decreases |xs|
  {
    if xs != [] {
      var init := xs[..|xs| - 1];
      DistinctCount(init, y);
      assert xs == init + [xs[|xs| - 1]];
      if xs[|xs| - 1] == y {
        assert y !in init;
      }
    }
  }

  /** The elements of a finite set, each once, in some order: the rows a
      query returns before its ORDER BY. */
  method SetToSeq<T>(s: set<T>) returns (xs: seq<T>)
    ensures Distinct(xs)
    ensures forall x :: x in xs <==> x in s
  {
    xs := [];
    var todo := s;
    while todo != {}
      invariant todo <= s
      invariant Distinct(xs)
      invariant forall x :: x in xs <==> x in s && x !in todo
      decreases |todo|
    {
      var x :| x in todo;
      xs := xs + [x];
      todo := todo - {x};
    }
  }
}
