/** Lists ordered newest first, for rows of any type whose time is given by `at`. */
module Recency {

  predicate NewestFirst<T>(at: T -> int, rows: seq<T>) {
    forall i, j :: 0 <= i < j < |rows| ==> at(rows[i]) >= at(rows[j])
  }

  function Insert<T(==)>(at: T -> int, x: T, sorted: seq<T>): (r: seq<T>)
    ensures multiset(r) == multiset(sorted) + multiset{x}
  {
    if sorted == [] || at(x) >= at(sorted[0]) then [x] + sorted
    else
      assert sorted == [sorted[0]] + sorted[1..];
      [sorted[0]] + Insert(at, x, sorted[1..])
  }

  lemma Concat<T>(at: T -> int, a: seq<T>, b: seq<T>)
    requires NewestFirst(at, a) && NewestFirst(at, b)
    requires forall i, j :: 0 <= i < |a| && 0 <= j < |b| ==> at(a[i]) >= at(b[j])
    ensures NewestFirst(at, a + b)
  {
  }

  lemma Prepend<T>(at: T -> int, x: T, sorted: seq<T>)
    requires NewestFirst(at, sorted) && (sorted != [] ==> at(x) >= at(sorted[0]))
    ensures NewestFirst(at, [x] + sorted)
  {
    forall i | 0 <= i < |sorted| ensures at(x) >= at(sorted[i]) {
      assert at(sorted[0]) >= at(sorted[i]);
    }
  }

  lemma {:induction false} InsertKeepsOrder<T>(at: T -> int, x: T, sorted: seq<T>)
    requires NewestFirst(at, sorted)
    ensures NewestFirst(at, Insert(at, x, sorted))
  {
    if sorted == [] || at(x) >= at(sorted[0]) {
      Prepend(at, x, sorted);
    } else {
      InsertKeepsOrder(at, x, sorted[1..]);
      Prepend(at, sorted[0], Insert(at, x, sorted[1..]));
    }
  }

  /** Stands for the library sort; callers rely only on the result being one of the sorted orders. */
  method SortNewestFirst<T(==)>(at: T -> int, rows: seq<T>) returns (sorted: seq<T>)
    ensures NewestFirst(at, sorted) && multiset(sorted) == multiset(rows)
  {
    sorted := [];
    for i := 0 to |rows|
      invariant NewestFirst(at, sorted) && multiset(sorted) == multiset(rows[..i])
    {
      assert rows[..i + 1] == rows[..i] + [rows[i]];
      InsertKeepsOrder(at, rows[i], sorted);
      sorted := Insert(at, rows[i], sorted);
    }
    assert rows[..|rows|] == rows;
  }

  lemma NoLarger<T>(small: multiset<T>, large: multiset<T>)
    requires forall x :: small[x] <= large[x]
    ensures |small| <= |large|
  {
    assert large == small + (large - small);
  }
}
