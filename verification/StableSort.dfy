/** The standard library's stable sort, as insertion in front of the first
    element that is not smaller. */
module StableSort {

  function Insert<T>(x: T, sorted: seq<T>, less: (T, T) -> bool): seq<T> {
    if sorted == [] || !less(sorted[0], x) then [x] + sorted
    else [sorted[0]] + Insert(x, sorted[1..], less)
  }

  function Sort<T>(xs: seq<T>, less: (T, T) -> bool): seq<T> {
    if xs == [] then [] else Insert(xs[0], Sort(xs[1..], less), less)
  }

  /** A strict weak order. */
  ghost predicate Orders<T(!new)>(less: (T, T) -> bool) {
    && (forall a, b, c :: less(a, b) && less(b, c) ==> less(a, c))
    && (forall a, b :: less(a, b) ==> !less(b, a))
    && (forall a, b, c :: less(a, b) ==> less(a, c) || less(c, b))
  }

  ghost predicate InOrder<T>(xs: seq<T>, less: (T, T) -> bool) {
    forall i, j :: 0 <= i < j < |xs| ==> !less(xs[j], xs[i])
  }

  lemma {:induction false} InsertPermutes<T>(x: T, sorted: seq<T>, less: (T, T) -> bool)
    ensures multiset(Insert(x, sorted, less)) == multiset{x} + multiset(sorted)
  {
    if sorted != [] && less(sorted[0], x) {
      InsertPermutes(x, sorted[1..], less);
      assert sorted == [sorted[0]] + sorted[1..];
    }
  }

  /** Sorting keeps every element as often as it was there. */
  lemma {:induction false} SortPermutes<T>(xs: seq<T>, less: (T, T) -> bool)
    ensures multiset(Sort(xs, less)) == multiset(xs)
    ensures forall x :: x in Sort(xs, less) <==> x in xs
  {
    if xs != [] {
      SortPermutes(xs[1..], less);
      InsertPermutes(xs[0], Sort(xs[1..], less), less);
      assert xs == [xs[0]] + xs[1..];
    }
    assert forall x :: x in Sort(xs, less) <==> x in multiset(Sort(xs, less));
  }

  lemma {:induction false} InsertMembers<T>(x: T, sorted: seq<T>, less: (T, T) -> bool)
    ensures forall y :: y in Insert(x, sorted, less) <==> y == x || y in sorted
  {
    if sorted != [] && less(sorted[0], x) {
      InsertMembers(x, sorted[1..], less);
      assert sorted == [sorted[0]] + sorted[1..];
    }
  }

  lemma InOrderCons<T>(x: T, xs: seq<T>, less: (T, T) -> bool)
    requires InOrder(xs, less) && forall y :: y in xs ==> !less(y, x)
    ensures InOrder([x] + xs, less)
  {
  }

  lemma {:induction false} InsertInOrder<T(!new)>(x: T, sorted: seq<T>, less: (T, T) -> bool)
    requires Orders(less) && InOrder(sorted, less)
    ensures InOrder(Insert(x, sorted, less), less)
  {
    if sorted == [] {
    } else if less(sorted[0], x) {
      InsertInOrder(x, sorted[1..], less);
      InsertMembers(x, sorted[1..], less);
      forall y | y in Insert(x, sorted[1..], less)
        ensures !less(y, sorted[0])
      {
        if y != x {
          var j :| 0 <= j < |sorted[1..]| && sorted[1..][j] == y;
          assert sorted[j + 1] == y;
        }
      }
      InOrderCons(sorted[0], Insert(x, sorted[1..], less), less);
    } else {
      forall y | y in sorted
        ensures !less(y, x)
      {
        var j :| 0 <= j < |sorted| && sorted[j] == y;
        assert j > 0 ==> !less(y, sorted[0]);
      }
      InOrderCons(x, sorted, less);
    }
  }

  lemma {:induction false} SortInOrder<T(!new)>(xs: seq<T>, less: (T, T) -> bool)
    requires Orders(less)
    ensures InOrder(Sort(xs, less), less)
  {
    if xs != [] {
      SortInOrder(xs[1..], less);
      InsertInOrder(xs[0], Sort(xs[1..], less), less);
    }
  }

  /** Inserting into a list whose second part starts with nothing smaller stays
      in the first part. */
  lemma {:induction false} InsertInFront<T>(x: T, front: seq<T>, back: seq<T>, less: (T, T) -> bool)
    requires back != [] ==> !less(back[0], x)
    ensures Insert(x, front + back, less) == Insert(x, front, less) + back
  {
    if front == [] {
      assert front + back == back;
    } else {
      assert (front + back)[1..] == front[1..] + back;
      InsertInFront(x, front[1..], back, less);
    }
  }

  /** Inserting behind a first part of smaller elements leaves it alone. */
  lemma {:induction false} InsertBehind<T>(x: T, front: seq<T>, back: seq<T>, less: (T, T) -> bool)
    requires forall y :: y in front ==> less(y, x)
    ensures Insert(x, front + back, less) == front + Insert(x, back, less)
  {
    if front == [] {
      assert front + back == back;
    } else {
      assert (front + back)[1..] == front[1..] + back && front == [front[0]] + front[1..];
      InsertBehind(x, front[1..], back, less);
    }
  }

  lemma InsertHead<T>(x: T, back: seq<T>, less: (T, T) -> bool)
    requires back == [] || !less(back[0], x)
    ensures Insert(x, back, less) == [x] + back
  {
  }

  // ----- one element more ------------------------------------------------------------

  /** No element of `xs` must come after `x`. */
  ghost predicate NoneAbove<T>(xs: seq<T>, x: T, less: (T, T) -> bool) {
    forall y :: y in xs ==> !less(x, y)
  }

  /** No element of `xs` must come before `x`. */
  ghost predicate NoneBelow<T>(xs: seq<T>, x: T, less: (T, T) -> bool) {
    forall y :: y in xs ==> !less(y, x)
  }

  lemma {:induction false} InsertSplits<T(!new)>(x: T, sorted: seq<T>, less: (T, T) -> bool)
    returns (front: seq<T>, back: seq<T>)
    requires Orders(less) && InOrder(sorted, less)
    ensures sorted == front + back && Insert(x, sorted, less) == front + [x] + back
    ensures NoneAbove(front, x, less) && NoneBelow(back, x, less)
  {
    if sorted == [] || !less(sorted[0], x) {
      front, back := [], sorted;
      forall y | y in sorted
        ensures !less(y, x)
      {
        var j :| 0 <= j < |sorted| && sorted[j] == y;
        assert j > 0 ==> !less(y, sorted[0]);
      }
    } else {
      var f;
      f, back := InsertSplits(x, sorted[1..], less);
      front := [sorted[0]] + f;
      assert sorted == [sorted[0]] + sorted[1..];
    }
  }

  lemma InsertBefore<T>(y: T, x: T, back: seq<T>, less: (T, T) -> bool)
    ensures Insert(y, [x] + back, less) == if less(x, y) then [x] + Insert(y, back, less) else [y] + ([x] + back)
  {
    assert ([x] + back)[1..] == back;
  }

  /** Where `x` stands between two parts, inserting `y` puts it in one of them. */
  lemma InsertAround<T(!new)>(y: T, f: seq<T>, x: T, k: seq<T>, less: (T, T) -> bool)
    returns (front: seq<T>, back: seq<T>)
    requires Orders(less) && NoneAbove(f, x, less) && NoneBelow(k, x, less)
    ensures Insert(y, f + k, less) == front + back && Insert(y, f + [x] + k, less) == front + [x] + back
    ensures NoneAbove(front, x, less) && NoneBelow(back, x, less)
  {
    hide Insert;
    assert f + [x] + k == f + ([x] + k);
    InsertBefore(y, x, k, less);
    if less(x, y) {
      front, back := f, Insert(y, k, less);
      InsertBehind(y, f, k, less);
      InsertBehind(y, f, [x] + k, less);
      InsertMembers(y, k, less);
    } else {
      front, back := Insert(y, f, less), k;
      HasHead(k);
      InsertInFront(y, f, k, less);
      InsertInFront(y, f, [x] + k, less);
      InsertMembers(y, f, less);
    }
  }

  lemma SortCons<T>(x: T, xs: seq<T>, less: (T, T) -> bool)
    ensures Sort([x] + xs, less) == Insert(x, Sort(xs, less), less)
  {
    assert ([x] + xs)[1..] == xs;
  }

  /** Sorting with one element more puts it between two parts of the sorted list. */
  lemma {:induction false} SortAround<T(!new)>(a: seq<T>, x: T, b: seq<T>, less: (T, T) -> bool)
    returns (front: seq<T>, back: seq<T>)
    requires Orders(less)
    ensures Sort(a + b, less) == front + back && Sort(a + [x] + b, less) == front + [x] + back
    ensures NoneAbove(front, x, less) && NoneBelow(back, x, less)
    decreases |a|
  {
    hide Sort, Insert, Orders;
    if a == [] {
      assert a + b == b && a + [x] + b == [x] + b;
      SortCons(x, b, less);
      SortInOrder(b, less);
      front, back := InsertSplits(x, Sort(b, less), less);
    } else {
      assert a + b == [a[0]] + (a[1..] + b) && a + [x] + b == [a[0]] + (a[1..] + [x] + b);
      SortCons(a[0], a[1..] + b, less);
      SortCons(a[0], a[1..] + [x] + b, less);
      var f, k := SortAround(a[1..], x, b, less);
      front, back := InsertAround(a[0], f, x, k, less);
    }
  }

  // ----- strictly ordered lists ------------------------------------------------------

  ghost predicate Ascends<T>(xs: seq<T>, less: (T, T) -> bool) {
    forall i, j :: 0 <= i < j < |xs| ==> less(xs[i], xs[j])
  }

  lemma AscendsCons<T>(x: T, xs: seq<T>, less: (T, T) -> bool)
    requires Ascends(xs, less) && forall y :: y in xs ==> less(x, y)
    ensures Ascends([x] + xs, less)
  {
  }

  lemma HasHead<T>(xs: seq<T>)
    ensures xs == [] || xs[0] in xs
  {
  }

  lemma HeadIsLeast<T(!new)>(a: seq<T>, b: seq<T>, less: (T, T) -> bool)
    requires Orders(less) && Ascends(a, less) && Ascends(b, less) && a != [] && b != []
    requires a[0] in b && b[0] in a
    ensures a[0] == b[0]
  {
    var i :| 0 <= i < |b| && b[i] == a[0];
    var j :| 0 <= j < |a| && a[j] == b[0];
  }

  lemma TailMembers<T(!new)>(xs: seq<T>, less: (T, T) -> bool)
    requires Orders(less) && Ascends(xs, less) && xs != []
    ensures forall x :: x in xs[1..] <==> x in xs && x != xs[0]
  {
    forall x | x in xs[1..]
      ensures x != xs[0]
    {
      var j :| 0 <= j < |xs[1..]| && xs[1..][j] == x;
      assert less(xs[0], xs[j + 1]);
    }
    assert xs == [xs[0]] + xs[1..];
  }

  /** Strictly ordered lists of the same elements are the same list. */
  lemma {:induction false} AscendingIsUnique<T(!new)>(a: seq<T>, b: seq<T>, less: (T, T) -> bool)
    requires Orders(less) && Ascends(a, less) && Ascends(b, less) && forall x :: x in a <==> x in b
    ensures a == b
  {
    HasHead(a);
    HasHead(b);
    if a != [] {
      HeadIsLeast(a, b, less);
      TailMembers(a, less);
      TailMembers(b, less);
      AscendingIsUnique(a[1..], b[1..], less);
      assert a == [a[0]] + a[1..] && b == [b[0]] + b[1..];
    }
  }
}
