/** Rust's `sort_by` on values: insertion before the first element that may follow. */
module StableSort {
  predicate Sorted<T(!new)>(before: (T, T) -> bool, xs: seq<T>) {
    forall i, j | 0 <= i < j < |xs| :: before(xs[i], xs[j])
  }

  /** What the comparators of the repository are: total and transitive, equals allowed. */
  ghost predicate Preorder<T(!new)>(before: (T, T) -> bool) {
    && (forall x, y :: before(x, y) || before(y, x))
    && (forall x, y, z :: before(x, y) && before(y, z) ==> before(x, z))
  }

  function Insert<T>(before: (T, T) -> bool, x: T, xs: seq<T>): (r: seq<T>)
    ensures multiset(r) == multiset([x]) + multiset(xs) && |r| == |xs| + 1
  {
    if xs == [] then [x]
    else if before(x, xs[0]) then [x] + xs
    else
      assert xs == [xs[0]] + xs[1..];
      [xs[0]] + Insert(before, x, xs[1..])
  }

  function Sort<T>(before: (T, T) -> bool, xs: seq<T>): (r: seq<T>)
    ensures multiset(r) == multiset(xs) && |r| == |xs|
  {
    if xs == [] then [] else
    assert xs == [xs[0]] + xs[1..];
    Insert(before, xs[0], Sort(before, xs[1..]))
  }

  lemma {:induction false} InsertSorted<T(!new)>(before: (T, T) -> bool, x: T, xs: seq<T>)
    requires Preorder(before) && Sorted(before, xs)
    ensures Sorted(before, Insert(before, x, xs))
  {
    if xs != [] && !before(x, xs[0]) {
      InsertSorted(before, x, xs[1..]);
      var r := Insert(before, x, xs[1..]);
      forall j | 0 <= j < |r|
        ensures before(xs[0], r[j])
      {
        assert r[j] in multiset(r);
        assert r[j] == x || r[j] in xs[1..];
      }
    }
  }

  lemma {:induction false} SortSorts<T(!new)>(before: (T, T) -> bool, xs: seq<T>)
    requires Preorder(before)
    ensures Sorted(before, Sort(before, xs))
  {
    if xs != [] {
      SortSorts(before, xs[1..]);
      InsertSorted(before, xs[0], Sort(before, xs[1..]));
    }
  }

  function Where<T>(p: T -> bool, xs: seq<T>): seq<T> {
    if xs == [] then [] else Kept(p, xs[0]) + Where(p, xs[1..])
  }

  /** Elements the comparator does not tell apart. */
  ghost predicate Tied<T(!new)>(before: (T, T) -> bool, p: T -> bool) {
    forall x, y | p(x) && p(y) :: before(x, y)
  }

  function Kept<T>(p: T -> bool, x: T): seq<T> {
    if p(x) then [x] else []
  }

  lemma WherePrepend<T>(p: T -> bool, x: T, xs: seq<T>)
    ensures Where(p, [x] + xs) == Kept(p, x) + Where(p, xs)
  {
    assert ([x] + xs)[1..] == xs;
  }

  lemma Swap<T>(a: seq<T>, b: seq<T>, c: seq<T>)
    requires a == [] || b == []
    ensures a + (b + c) == b + (a + c)
  {
  }

  lemma InsertUnfolds<T>(before: (T, T) -> bool, x: T, xs: seq<T>)
    ensures xs == [] || before(x, xs[0]) ==> Insert(before, x, xs) == [x] + xs
    ensures xs != [] && !before(x, xs[0]) ==> Insert(before, x, xs) == [xs[0]] + Insert(before, x, xs[1..])
    ensures xs != [] ==> xs == [xs[0]] + xs[1..]
  {
  }

  lemma {:induction false} InsertStable<T(!new)>(before: (T, T) -> bool, p: T -> bool, x: T, xs: seq<T>)
    requires Tied(before, p)
    ensures Where(p, Insert(before, x, xs)) == Kept(p, x) + Where(p, xs)
  {
    InsertUnfolds(before, x, xs);
    if xs == [] || before(x, xs[0]) {
      WherePrepend(p, x, xs);
    } else {
      assert Kept(p, x) == [] || Kept(p, xs[0]) == [];
      hide *;
      InsertStable(before, p, x, xs[1..]);
      WherePrepend(p, xs[0], Insert(before, x, xs[1..]));
      WherePrepend(p, xs[0], xs[1..]);
      Swap(Kept(p, xs[0]), Kept(p, x), Where(p, xs[1..]));
    }
  }

  /** Ties keep their order, so the sorted order is determined. */
  lemma {:induction false} SortStable<T(!new)>(before: (T, T) -> bool, p: T -> bool, xs: seq<T>)
    requires Tied(before, p)
    ensures Where(p, Sort(before, xs)) == Where(p, xs)
  {
    if xs != [] {
      SortStable(before, p, xs[1..]);
      InsertStable(before, p, xs[0], Sort(before, xs[1..]));
      hide Insert, Kept;
    }
  }

  lemma {:induction false} AlreadySorted<T(!new)>(before: (T, T) -> bool, xs: seq<T>)
    requires Sorted(before, xs)
    ensures Sort(before, xs) == xs
  {
    if xs != [] {
      AlreadySorted(before, xs[1..]);
    }
  }
}
