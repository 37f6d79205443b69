/** Stable sorting: what it promises, that the promise fixes the result, and how it behaves under
    composition. std::ranges::stable_sort appears here as binary insertion would do it. */
module StableSorting {

  /** A strict weak order on the elements of a list, which is what std::stable_sort demands. */
  ghost predicate WeakOrderOn<T(!new)>(less: (T, T) -> bool, xs: seq<T>) {
    && (forall x :: x in xs ==> !less(x, x))
    && (forall x, y, z :: x in xs && y in xs && z in xs && less(x, y) && less(y, z) ==> less(x, z))
    && (forall x, y, z :: x in xs && y in xs && z in xs && !less(x, y) && !less(y, z) ==> !less(x, z))
  }

  predicate Tied<T>(less: (T, T) -> bool, x: T, y: T) {
    !less(x, y) && !less(y, x)
  }

  ghost predicate Sorted<T>(less: (T, T) -> bool, s: seq<T>) {
    forall i, j :: 0 <= i < j < |s| ==> !less(s[j], s[i])
  }

  /** The elements tied with x, in their order. */
  ghost function TiedWith<T>(less: (T, T) -> bool, x: T, s: seq<T>): seq<T> {
    if s == [] then [] else (if Tied(less, x, s[0]) then [s[0]] else []) + TiedWith(less, x, s[1..])
  }

  /** Two lists hold the same tied elements in the same order. */
  ghost predicate SameTies<T(!new)>(less: (T, T) -> bool, a: seq<T>, b: seq<T>) {
    forall x :: x in a || x in b ==> TiedWith(less, x, a) == TiedWith(less, x, b)
  }

  /** What a stable sort promises. */
  ghost predicate IsStableSort<T(!new)>(less: (T, T) -> bool, xs: seq<T>, ys: seq<T>) {
    Sorted(less, ys) && SameTies(less, xs, ys) && multiset(xs) == multiset(ys)
  }

  // ---------------------------------------------------------------- one implementation

  /** Puts x behind every element it is not less than. */
  function Insert<T>(less: (T, T) -> bool, s: seq<T>, x: T): seq<T> {
    if s == [] || !less(x, s[|s| - 1]) then s + [x]
    else Insert(less, s[..|s| - 1], x) + [s[|s| - 1]]
  }

  function Sort<T>(less: (T, T) -> bool, xs: seq<T>): seq<T> {
    if xs == [] then [] else Insert(less, Sort(less, xs[..|xs| - 1]), xs[|xs| - 1])
  }

  lemma {:induction false} TiedWithConcat<T>(less: (T, T) -> bool, x: T, a: seq<T>, b: seq<T>)
    ensures TiedWith(less, x, a + b) == TiedWith(less, x, a) + TiedWith(less, x, b)
  {
    if a == [] {
      assert a + b == b;
    } else {
      assert (a + b)[1..] == a[1..] + b;
      TiedWithConcat(less, x, a[1..], b);
    }
  }

  lemma {:induction false} TiedWithOne<T>(less: (T, T) -> bool, x: T, y: T)
    ensures TiedWith(less, x, [y]) == if Tied(less, x, y) then [y] else []
  {
    assert [y][1..] == [];
  }

  lemma {:induction false} InsertContents<T>(less: (T, T) -> bool, s: seq<T>, x: T)
    ensures multiset(Insert(less, s, x)) == multiset(s) + multiset{x}
    decreases |s|
  {
    if s != [] && less(x, s[|s| - 1]) {
      InsertContents(less, s[..|s| - 1], x);
      assert s == s[..|s| - 1] + [s[|s| - 1]];
    }
  }

  lemma {:induction false} InsertSorts<T(!new)>(less: (T, T) -> bool, s: seq<T>, x: T)
    requires WeakOrderOn(less, s + [x]) && Sorted(less, s)
    ensures Sorted(less, Insert(less, s, x))
    decreases |s|
  {
    var all := s + [x];
    assert x in all && forall y :: y in s ==> y in all;
    if s != [] && less(x, s[|s| - 1]) {
      var front, last := s[..|s| - 1], s[|s| - 1];
      assert forall y :: y in front + [x] ==> y in all;
      InsertSorts(less, front, x);
      var t := Insert(less, front, x);
      InsertContents(less, front, x);
      forall i | 0 <= i < |t|
        ensures !less(last, t[i])
      {
        assert t[i] in multiset(t);
        assert t[i] == x || t[i] in front;
        if t[i] in front {
          var k :| 0 <= k < |front| && front[k] == t[i];
          assert s[k] == t[i];
        } else {
          assert last in all && !less(x, x);
        }
      }
    } else {
      forall i | 0 <= i < |s|
        ensures !less(x, s[i])
      {
        if i < |s| - 1 {
          var last := s[|s| - 1];
          assert last in all && s[i] in all;
          assert !less(x, last) && !less(last, s[i]);
        }
      }
    }
  }

  /** Insertion keeps the order of tied elements, x last. */
  lemma {:induction false} InsertTies<T(!new)>(less: (T, T) -> bool, s: seq<T>, x: T, y: T, all: seq<T>)
    requires WeakOrderOn(less, all) && y in all && x in all && forall w :: w in s ==> w in all
    ensures TiedWith(less, y, Insert(less, s, x)) == TiedWith(less, y, s + [x])
    decreases |s|
  {
    if s != [] && less(x, s[|s| - 1]) {
      var front, last := s[..|s| - 1], s[|s| - 1];
      assert s == front + [last] && last in all;
      assert s + [x] == front + [last] + [x];
      TiedWithConcat(less, y, Insert(less, front, x), [last]);
      TiedWithConcat(less, y, front, [x]);
      TiedWithConcat(less, y, front + [last], [x]);
      TiedWithConcat(less, y, front, [last]);
      TiedWithOne(less, y, x);
      TiedWithOne(less, y, last);
      // x and last are not tied with each other, so at most one of them is tied with y.
      assert !(Tied(less, y, x) && Tied(less, y, last));
      InsertTies(less, front, x, y, all);
    }
  }

  lemma {:induction false} SortProperties<T(!new)>(less: (T, T) -> bool, xs: seq<T>, all: seq<T>)
    requires WeakOrderOn(less, all) && forall w :: w in xs ==> w in all
    ensures Sorted(less, Sort(less, xs)) && multiset(Sort(less, xs)) == multiset(xs)
    ensures forall y :: y in all ==> TiedWith(less, y, Sort(less, xs)) == TiedWith(less, y, xs)
  {
    if xs != [] {
      var front, last := xs[..|xs| - 1], xs[|xs| - 1];
      var sorted := Sort(less, front);
      assert xs == front + [last] && last in xs;
      SortProperties(less, front, all);
      SameContents(sorted, front);
      assert forall w :: w in sorted + [last] ==> w in all;
      InsertSorts(less, sorted, last);
      InsertContents(less, sorted, last);
      forall y | y in all
        ensures TiedWith(less, y, Sort(less, xs)) == TiedWith(less, y, xs)
      {
        InsertTies(less, sorted, last, y, all);
        TiedWithConcat(less, y, sorted, [last]);
        TiedWithConcat(less, y, front, [last]);
      }
    }
  }

  lemma SameContents<T>(a: seq<T>, b: seq<T>)
    requires multiset(a) == multiset(b)
    ensures |a| == |b| && forall x :: x in a <==> x in b
  {
    assert |multiset(a)| == |a| && |multiset(b)| == |b|;
    forall x
      ensures x in a <==> x in b
    {
      assert x in a <==> x in multiset(a);
      assert x in b <==> x in multiset(b);
    }
  }

  /** Sort keeps the promise. */
  lemma SortIsStable<T(!new)>(less: (T, T) -> bool, xs: seq<T>)
    requires WeakOrderOn(less, xs)
    ensures IsStableSort(less, xs, Sort(less, xs))
  {
    SortProperties(less, xs, xs);
    SameContents(Sort(less, xs), xs);
  }

  // ---------------------------------------------------------------- uniqueness

  lemma TiedHead<T(!new)>(less: (T, T) -> bool, a: seq<T>, b: seq<T>)
    requires WeakOrderOn(less, a) && Sorted(less, a) && Sorted(less, b) && SameTies(less, a, b)
    requires multiset(a) == multiset(b) && a != [] && b != []
    ensures a[0] == b[0]
  {
    SameContents(a, b);
    assert a[0] in b && b[0] in a && a[0] in a;
    var i :| 0 <= i < |a| && a[i] == b[0];
    var j :| 0 <= j < |b| && b[j] == a[0];
    assert !less(b[0], a[0]) && !less(a[0], b[0]);
    assert TiedWith(less, a[0], a)[0] == a[0];
    assert TiedWith(less, a[0], b)[0] == b[0];
  }

  lemma SameTiesTail<T(!new)>(less: (T, T) -> bool, a: seq<T>, b: seq<T>)
    requires SameTies(less, a, b) && a != [] && b != [] && a[0] == b[0]
    ensures SameTies(less, a[1..], b[1..])
  {
    forall x | x in a[1..] || x in b[1..]
      ensures TiedWith(less, x, a[1..]) == TiedWith(less, x, b[1..])
    {
      assert x in a || x in b;
      var head := if Tied(less, x, a[0]) then [a[0]] else [];
      assert TiedWith(less, x, a) == head + TiedWith(less, x, a[1..]);
      assert TiedWith(less, x, b) == head + TiedWith(less, x, b[1..]);
      assert TiedWith(less, x, a[1..]) == TiedWith(less, x, a)[|head|..];
      assert TiedWith(less, x, b[1..]) == TiedWith(less, x, b)[|head|..];
    }
  }

  lemma WeakOrderOnPart<T(!new)>(less: (T, T) -> bool, xs: seq<T>, part: seq<T>)
    requires WeakOrderOn(less, xs) && forall x :: x in part ==> x in xs
    ensures WeakOrderOn(less, part)
  {
  }

  lemma SortedTail<T(!new)>(less: (T, T) -> bool, a: seq<T>)
    requires WeakOrderOn(less, a) && Sorted(less, a) && a != []
    ensures WeakOrderOn(less, a[1..]) && Sorted(less, a[1..])
    ensures multiset(a[1..]) == multiset(a) - multiset{a[0]}
  {
    assert a == [a[0]] + a[1..];
    WeakOrderOnPart(less, a, a[1..]);
  }

  /** Two sorted lists that agree on the order of tied elements are the same list. */
  lemma {:induction false} SortedAgree<T(!new)>(less: (T, T) -> bool, a: seq<T>, b: seq<T>)
    requires WeakOrderOn(less, a) && WeakOrderOn(less, b)
    requires Sorted(less, a) && Sorted(less, b) && SameTies(less, a, b)
    requires multiset(a) == multiset(b)
    ensures a == b
    decreases |a|
  {
    hide WeakOrderOn;
    hide Sorted;
    hide SameTies;
    SameContents(a, b);
    if a != [] {
      TiedHead(less, a, b);
      SameTiesTail(less, a, b);
      SortedTail(less, a);
      SortedTail(less, b);
      SortedAgree(less, a[1..], b[1..]);
      assert a == [a[0]] + a[1..] && b == [b[0]] + b[1..];
    }
  }

  lemma SameTiesJoin<T(!new)>(less: (T, T) -> bool, xs: seq<T>, ys: seq<T>, zs: seq<T>)
    requires SameTies(less, xs, ys) && SameTies(less, xs, zs)
    requires forall x :: x in xs <==> x in ys
    requires forall x :: x in xs <==> x in zs
    ensures SameTies(less, ys, zs)
  {
  }

  /** The promise fixes the result. */
  lemma StableSortUnique<T(!new)>(less: (T, T) -> bool, xs: seq<T>, ys: seq<T>, zs: seq<T>)
    requires WeakOrderOn(less, xs) && IsStableSort(less, xs, ys) && IsStableSort(less, xs, zs)
    ensures ys == zs
  {
    SameContents(xs, ys);
    SameContents(xs, zs);
    WeakOrderOnPart(less, xs, ys);
    WeakOrderOnPart(less, xs, zs);
    SameTiesJoin(less, xs, ys, zs);
    SortedAgree(less, ys, zs);
  }
}
