/**
 The operator's tenant list: newest first, a page at a time, with a cursor that is the creation
 time of the page's last row written as an RFC 3339 string, and so cut down to whole seconds.
 */
module TenantPages {

  import Recency

  /** A tenant row; `createdAt` is in nanoseconds. */
  datatype Account = Account(id: string, createdAt: int)

  const SECOND := 1_000_000_000

  function WholeSecond(t: int): int { t / SECOND }

  /** The `cursor` query parameter: absent, not a timestamp (and then ignored), or a whole second. */
  datatype Cursor = NoCursor | Unparseable | At(second: int)

  predicate Before(a: Account, cursor: Cursor) {
    cursor.At? ==> a.createdAt < cursor.second * SECOND
  }

  function CreatedAt(a: Account): int { a.createdAt }

  predicate NewestFirst(rows: seq<Account>) { Recency.NewestFirst(CreatedAt, rows) }

  /** One of the orders the library sort may leave the rows in; ties fall either way on each request. */
  predicate SortOf(sorted: seq<Account>, all: multiset<Account>) {
    NewestFirst(sorted) && multiset(sorted) == all
  }

  // ---------------------------------------------------------------------------------------
  // One page
  // ---------------------------------------------------------------------------------------

  function PageStart(sorted: seq<Account>, cursor: Cursor): (start: nat)
    ensures start <= |sorted|
    ensures forall i :: 0 <= i < start ==> !Before(sorted[i], cursor)
    ensures start < |sorted| ==> Before(sorted[start], cursor)
  {
    if sorted == [] || Before(sorted[0], cursor) then 0 else 1 + PageStart(sorted[1..], cursor)
  }

  function PageEnd(sorted: seq<Account>, cursor: Cursor, limit: nat): (end: nat)
    ensures PageStart(sorted, cursor) <= end <= |sorted|
  {
    var end := PageStart(sorted, cursor) + limit;
    if end > |sorted| then |sorted| else end
  }

  function Page(sorted: seq<Account>, cursor: Cursor, limit: nat): seq<Account> {
    sorted[PageStart(sorted, cursor)..PageEnd(sorted, cursor, limit)]
  }

  predicate More(sorted: seq<Account>, cursor: Cursor, limit: nat) {
    PageStart(sorted, cursor) + limit < |sorted|
  }

  /** The last row's whole second, when rows remain after the page. */
  function Next(sorted: seq<Account>, cursor: Cursor, limit: nat): Cursor
    requires limit >= 1
  {
    if More(sorted, cursor, limit)
    then At(WholeSecond(sorted[PageEnd(sorted, cursor, limit) - 1].createdAt))
    else NoCursor
  }

  lemma StartUnique(sorted: seq<Account>, cursor: Cursor, start: nat)
    requires start <= |sorted| && (start < |sorted| ==> Before(sorted[start], cursor))
    requires forall i :: 0 <= i < start ==> !Before(sorted[i], cursor)
    ensures start == PageStart(sorted, cursor)
  {
    var f := PageStart(sorted, cursor);
    assert f < |sorted| ==> Before(sorted[f], cursor);
  }

  /** In a sorted list the rows before the cursor are exactly those from the page's start on. */
  lemma SplitAtStart(sorted: seq<Account>, cursor: Cursor)
    requires NewestFirst(sorted)
    ensures forall i :: 0 <= i < |sorted| ==> (Before(sorted[i], cursor) <==> PageStart(sorted, cursor) <= i)
  {
    var start := PageStart(sorted, cursor);
    forall i | start <= i < |sorted| ensures Before(sorted[i], cursor) {
      assert sorted[start].createdAt >= sorted[i].createdAt;
    }
  }

  method FindStart(list: seq<Account>, cursor: Cursor) returns (start: nat)
    ensures start == PageStart(list, cursor)
  {
    start := 0;
    if cursor.At? {
      for i := 0 to |list|
        invariant start == i && forall j :: 0 <= j < i ==> !Before(list[j], cursor)
      {
        if list[i].createdAt < cursor.second * SECOND {
          start := i;
          break;
        }
        start := i + 1;
      }
    }
    StartUnique(list, cursor, start);
  }

  method CutPage(list: seq<Account>, cursor: Cursor, limit: nat) returns (page: seq<Account>, next: Cursor)
    requires limit >= 1
    ensures page == Page(list, cursor, limit) && next == Next(list, cursor, limit)
  {
    var start := FindStart(list, cursor);
    var end := start + limit;
    next := NoCursor;
    if end < |list| {
      next := At(WholeSecond(list[end - 1].createdAt));
    }
    if end > |list| {
      end := |list|;
    }
    page := list[start..end];
  }

  lemma SplitPage(sorted: seq<Account>, start: nat, end: nat, a: Account)
    requires start <= end <= |sorted|
    ensures multiset(sorted)[a] ==
      multiset(sorted[..start])[a] + multiset(sorted[start..end])[a] + multiset(sorted[end..])[a]
  {
    assert sorted == sorted[..start] + sorted[start..end] + sorted[end..];
  }

  lemma LaterIsOlder(sorted: seq<Account>, start: nat, end: nat, a: Account, x: Account)
    requires NewestFirst(sorted) && start <= end <= |sorted| && x in sorted[start..end] && a in sorted[end..]
    ensures a.createdAt <= x.createdAt
  {
    var i :| 0 <= i < |sorted[end..]| && sorted[end..][i] == a;
    var j :| 0 <= j < |sorted[start..end]| && sorted[start..end][j] == x;
    assert sorted[start + j] == x && sorted[end + i] == a;
  }

  lemma PageBeforeCursor(sorted: seq<Account>, cursor: Cursor, limit: nat, a: Account)
    requires limit >= 1 && NewestFirst(sorted) && a in Page(sorted, cursor, limit)
    ensures Before(a, cursor)
    ensures More(sorted, cursor, limit) ==> !Before(a, Next(sorted, cursor, limit))
  {
    SplitAtStart(sorted, cursor);
    if More(sorted, cursor, limit) {
      var last := sorted[PageEnd(sorted, cursor, limit) - 1];
      assert a.createdAt >= last.createdAt >= WholeSecond(last.createdAt) * SECOND;
    }
  }

  /** A row is in the page as often as in the list, or is not before the cursor, or lies after the page. */
  lemma PageCount(sorted: seq<Account>, cursor: Cursor, limit: nat, a: Account)
    requires limit >= 1 && NewestFirst(sorted)
    ensures multiset(Page(sorted, cursor, limit))[a] <= multiset(sorted)[a]
    ensures multiset(Page(sorted, cursor, limit))[a] < multiset(sorted)[a] && Before(a, cursor) ==>
      More(sorted, cursor, limit) && a in sorted[PageEnd(sorted, cursor, limit)..]
  {
    var start, end := PageStart(sorted, cursor), PageEnd(sorted, cursor, limit);
    assert sorted == sorted[..start] + sorted[start..end] + sorted[end..];
    if a in sorted[..start] {
      assert !Before(a, cursor);
    }
  }

  /** What a page of a sorted list leaves out: rows not before the cursor, and rows after a full page. */
  lemma PageLeaves(sorted: seq<Account>, cursor: Cursor, limit: nat, a: Account)
    requires limit >= 1 && NewestFirst(sorted)
    ensures multiset(Page(sorted, cursor, limit))[a] <= multiset(sorted)[a]
    ensures a in Page(sorted, cursor, limit) ==> Before(a, cursor)
    ensures multiset(Page(sorted, cursor, limit))[a] < multiset(sorted)[a] && Before(a, cursor) ==>
      && More(sorted, cursor, limit)
      && forall x :: x in Page(sorted, cursor, limit) ==> a.createdAt <= x.createdAt
  {
    var start, end := PageStart(sorted, cursor), PageEnd(sorted, cursor, limit);
    PageCount(sorted, cursor, limit, a);
    if a in Page(sorted, cursor, limit) {
      PageBeforeCursor(sorted, cursor, limit, a);
    }
    if multiset(Page(sorted, cursor, limit))[a] < multiset(sorted)[a] && Before(a, cursor) {
      forall x | x in Page(sorted, cursor, limit) ensures a.createdAt <= x.createdAt {
        LaterIsOlder(sorted, start, end, a, x);
      }
    }
  }

  /** A next cursor is the second of the last row of a full page. */
  lemma NextIsLast(sorted: seq<Account>, cursor: Cursor, limit: nat)
    requires limit >= 1 && Next(sorted, cursor, limit) != NoCursor
    ensures |Page(sorted, cursor, limit)| == limit
    ensures Next(sorted, cursor, limit) == At(Page(sorted, cursor, limit)[limit - 1].createdAt / 1_000_000_000)
  {
    var start := PageStart(sorted, cursor);
    assert PageEnd(sorted, cursor, limit) == start + limit;
    assert Page(sorted, cursor, limit)[limit - 1] == sorted[start + limit - 1];
  }

  /** And it is there only when a row before the cursor is left. */
  lemma RowLeft(sorted: seq<Account>, cursor: Cursor, limit: nat) returns (a: Account)
    requires limit >= 1 && NewestFirst(sorted) && More(sorted, cursor, limit)
    ensures Before(a, cursor) && multiset(Page(sorted, cursor, limit))[a] < multiset(sorted)[a]
  {
    var start, end := PageStart(sorted, cursor), PageEnd(sorted, cursor, limit);
    a := sorted[end];
    SplitAtStart(sorted, cursor);
    SplitPage(sorted, start, end, a);
    assert sorted[end..][0] == a;
    assert multiset(sorted[end..])[a] > 0;
  }

  /** All that a page leaves out. */
  lemma PageLeavesAll(
    sorted: seq<Account>, cursor: Cursor, limit: nat, rows: seq<Account>, page: seq<Account>, next: Cursor)
    requires limit >= 1 && SortOf(sorted, multiset(rows))
    requires page == Page(sorted, cursor, limit) && next == Next(sorted, cursor, limit)
    ensures |page| <= limit && multiset(page) <= multiset(rows)
    ensures forall a :: a in page && cursor.At? ==> a.createdAt < cursor.second * 1_000_000_000
    ensures forall a ::
      a in multiset(rows) - multiset(page) && (cursor.At? ==> a.createdAt < cursor.second * 1_000_000_000) ==>
      |page| == limit && next.At? && forall x :: x in page ==> a.createdAt <= x.createdAt
  {
    forall a
      ensures multiset(page)[a] <= multiset(rows)[a]
      ensures a in page && cursor.At? ==> a.createdAt < cursor.second * 1_000_000_000
      ensures
        a in multiset(rows) - multiset(page) && (cursor.At? ==> a.createdAt < cursor.second * 1_000_000_000) ==>
        |page| == limit && next.At? && forall x :: x in page ==> a.createdAt <= x.createdAt
    {
      PageLeaves(sorted, cursor, limit, a);
    }
  }

  lemma PageInOrder(sorted: seq<Account>, cursor: Cursor, limit: nat, page: seq<Account>)
    requires NewestFirst(sorted) && page == Page(sorted, cursor, limit)
    ensures forall i, j :: 0 <= i < j < |page| ==> page[i].createdAt >= page[j].createdAt
  {
  }

  /** The page and the cursor to follow it, for one of the orders sorting may give. */
  method PaginateTenantRows(rows: seq<Account>, cursor: Cursor, limit: nat)
    returns (page: seq<Account>, next: Cursor)
    requires limit >= 1
    ensures exists sorted :: (
      SortOf(sorted, multiset(rows)) && page == Page(sorted, cursor, limit) && next == Next(sorted, cursor, limit))
    ensures forall i, j :: 0 <= i < j < |page| ==> page[i].createdAt >= page[j].createdAt
    ensures |page| <= limit && multiset(page) <= multiset(rows)
    ensures forall a :: a in page && cursor.At? ==> a.createdAt < cursor.second * 1_000_000_000
    ensures forall a ::
      a in multiset(rows) - multiset(page) && (cursor.At? ==> a.createdAt < cursor.second * 1_000_000_000) ==>
      |page| == limit && next.At? && forall x :: x in page ==> a.createdAt <= x.createdAt
    ensures !next.NoCursor? ==>
      && |page| == limit && next == At(page[limit - 1].createdAt / 1_000_000_000)
      && exists a :: a in multiset(rows) - multiset(page) && Before(a, cursor)
  {
    var list := Recency.SortNewestFirst(CreatedAt, rows);
    page, next := CutPage(list, cursor, limit);
    assert SortOf(list, multiset(rows));
    PageInOrder(list, cursor, limit, page);
    PageLeavesAll(list, cursor, limit, rows, page, next);
    if !next.NoCursor? {
      NextIsLast(list, cursor, limit);
      var left := RowLeft(list, cursor, limit);
      assert left in multiset(rows) - multiset(page);
    }
  }

  // ---------------------------------------------------------------------------------------
  // Following the cursors
  // ---------------------------------------------------------------------------------------

  /** Requests from `cursor` on, each sorting afresh, each but the last answered with a next cursor. */
  predicate Follows(all: multiset<Account>, limit: nat, cursor: Cursor, sorts: seq<seq<Account>>)
    requires limit >= 1
    decreases |sorts|
  {
    && sorts != [] && SortOf(sorts[0], all)
    && (|sorts| > 1 ==> More(sorts[0], cursor, limit) && Follows(all, limit, Next(sorts[0], cursor, limit), sorts[1..]))
  }

  /** The last request was answered without a next cursor. */
  predicate Ends(limit: nat, cursor: Cursor, sorts: seq<seq<Account>>)
    requires limit >= 1
    decreases |sorts|
  {
    sorts != [] &&
    if |sorts| == 1 then !More(sorts[0], cursor, limit) else Ends(limit, Next(sorts[0], cursor, limit), sorts[1..])
  }

  /** Every row of every page, in the order the reader gets them. */
  function Served(limit: nat, cursor: Cursor, sorts: seq<seq<Account>>): seq<Account>
    requires limit >= 1
    decreases |sorts|
  {
    if sorts == [] then []
    else Page(sorts[0], cursor, limit) + Served(limit, Next(sorts[0], cursor, limit), sorts[1..])
  }

  /** A row that is left for later shares its whole second with the page's last row. */
  predicate CutThrough(sorted: seq<Account>, cursor: Cursor, limit: nat, a: Account)
    requires limit >= 1
  {
    More(sorted, cursor, limit) && Next(sorted, cursor, limit) == At(WholeSecond(a.createdAt))
  }

  /** Some page of the walk ends inside the whole second of `a`. */
  predicate CutSomewhere(limit: nat, cursor: Cursor, sorts: seq<seq<Account>>, a: Account)
    requires limit >= 1
    decreases |sorts|
  {
    sorts != [] &&
    (CutThrough(sorts[0], cursor, limit, a) || CutSomewhere(limit, Next(sorts[0], cursor, limit), sorts[1..], a))
  }

  lemma NextIsEarlier(sorted: seq<Account>, cursor: Cursor, limit: nat, a: Account)
    requires limit >= 1 && NewestFirst(sorted) && More(sorted, cursor, limit)
    requires Before(a, Next(sorted, cursor, limit))
    ensures Before(a, cursor)
  {
    SplitAtStart(sorted, cursor);
    var last := sorted[PageEnd(sorted, cursor, limit) - 1];
    assert Before(last, cursor);
  }

  lemma {:induction false} ServedBefore(
    all: multiset<Account>, limit: nat, cursor: Cursor, sorts: seq<seq<Account>>, a: Account)
    requires limit >= 1 && Follows(all, limit, cursor, sorts) && a in Served(limit, cursor, sorts)
    ensures Before(a, cursor)
    decreases |sorts|
  {
    if a in Page(sorts[0], cursor, limit) {
      PageBeforeCursor(sorts[0], cursor, limit, a);
    } else {
      ServedBefore(all, limit, Next(sorts[0], cursor, limit), sorts[1..], a);
      NextIsEarlier(sorts[0], cursor, limit, a);
    }
  }

  /** Over a whole walk rows come newest first, however ties are sorted each time. */
  lemma {:induction false} ServedInOrder(all: multiset<Account>, limit: nat, cursor: Cursor, sorts: seq<seq<Account>>)
    requires limit >= 1 && Follows(all, limit, cursor, sorts)
    ensures NewestFirst(Served(limit, cursor, sorts))
    decreases |sorts|
  {
    var page, rest := Page(sorts[0], cursor, limit), Served(limit, Next(sorts[0], cursor, limit), sorts[1..]);
    if |sorts| > 1 {
      var next := Next(sorts[0], cursor, limit);
      ServedInOrder(all, limit, next, sorts[1..]);
      forall i, j | 0 <= i < |page| && 0 <= j < |rest| ensures page[i].createdAt >= rest[j].createdAt {
        PageBeforeCursor(sorts[0], cursor, limit, page[i]);
        ServedBefore(all, limit, next, sorts[1..], rest[j]);
      }
      Recency.Concat(CreatedAt, page, rest);
    } else {
      assert rest == [];
    }
  }

  /** A row after the page that the next cursor skips is in the second the page ended in. */
  lemma LeftBehind(sorted: seq<Account>, cursor: Cursor, limit: nat, a: Account)
    requires limit >= 1 && NewestFirst(sorted) && More(sorted, cursor, limit)
    requires a in sorted[PageEnd(sorted, cursor, limit)..] && !Before(a, Next(sorted, cursor, limit))
    ensures CutThrough(sorted, cursor, limit, a)
  {
    var last := sorted[PageEnd(sorted, cursor, limit) - 1];
    assert last.createdAt >= a.createdAt;
  }

  /** One row: never served more often than it exists, and if less often then a page ended inside its second. */
  lemma {:induction false} ServedCount(
    all: multiset<Account>, limit: nat, cursor: Cursor, sorts: seq<seq<Account>>, a: Account)
    requires limit >= 1 && Follows(all, limit, cursor, sorts)
    ensures multiset(Served(limit, cursor, sorts))[a] <= all[a]
    ensures Ends(limit, cursor, sorts) && Before(a, cursor) && multiset(Served(limit, cursor, sorts))[a] < all[a] ==>
      CutSomewhere(limit, cursor, sorts, a)
    decreases |sorts|
  {
    var s, next := sorts[0], Next(sorts[0], cursor, limit);
    var page, rest := Page(s, cursor, limit), Served(limit, next, sorts[1..]);
    PageCount(s, cursor, limit, a);
    if |sorts| == 1 {
      assert rest == [];
    } else {
      ServedCount(all, limit, next, sorts[1..], a);
      if a in page {
        PageBeforeCursor(s, cursor, limit, a);
      }
      if a in rest {
        ServedBefore(all, limit, next, sorts[1..], a);
      }
      if Before(a, cursor) && !Before(a, next) && multiset(page)[a] < all[a] {
        LeftBehind(s, cursor, limit, a);
      }
    }
  }

  lemma {:induction false} FullPages(all: multiset<Account>, limit: nat, cursor: Cursor, sorts: seq<seq<Account>>)
    requires limit >= 1 && Follows(all, limit, cursor, sorts)
    ensures (|sorts| - 1) * limit <= |Served(limit, cursor, sorts)|
    decreases |sorts|
  {
    if |sorts| > 1 {
      FullPages(all, limit, Next(sorts[0], cursor, limit), sorts[1..]);
      assert (|sorts| - 1) * limit == (|sorts[1..]| - 1) * limit + limit;
    }
  }

  /** No row is served twice, and a walk is never longer than its rows allow. */
  lemma ServedAtMostOnce(all: multiset<Account>, limit: nat, cursor: Cursor, sorts: seq<seq<Account>>)
    requires limit >= 1 && Follows(all, limit, cursor, sorts)
    ensures multiset(Served(limit, cursor, sorts)) <= all
    ensures (|sorts| - 1) * limit <= |all|
  {
    var served := multiset(Served(limit, cursor, sorts));
    forall a ensures served[a] <= all[a] {
      ServedCount(all, limit, cursor, sorts, a);
    }
    assert all == served + (all - served);
    FullPages(all, limit, cursor, sorts);
  }

  // ---------------------------------------------------------------------------------------
  // Exactly when a walk serves everything
  // ---------------------------------------------------------------------------------------

  lemma SplitCount(s: seq<Account>, i: nat, a: Account)
    requires i <= |s|
    ensures multiset(s)[a] == multiset(s[..i])[a] + multiset(s[i..])[a]
  {
    assert s == s[..i] + s[i..];
  }

  lemma NotLater(s: seq<Account>, t: seq<Account>, i: nat)
    requires NewestFirst(s) && NewestFirst(t) && multiset(s) == multiset(t) && i < |s| == |t|
    ensures s[i].createdAt <= t[i].createdAt
  {
    var head, lead := multiset(s[..i + 1]), multiset(t[..i]);
    assert |lead| == i && |head| == i + 1;
    if s[i].createdAt > t[i].createdAt {
      forall a ensures head[a] <= lead[a] {
        SplitCount(s, i + 1, a);
        SplitCount(t, i, a);
        if a in s[..i + 1] {
          assert a.createdAt >= s[i].createdAt;
          assert a !in t[i..];
        }
      }
      Recency.NoLarger(head, lead);
    }
  }

  /** Sorting decides the times in each place, whichever way ties fall. */
  lemma SameTimes(s: seq<Account>, t: seq<Account>, i: nat)
    requires NewestFirst(s) && NewestFirst(t) && multiset(s) == multiset(t) && i < |s|
    ensures |s| == |t| && s[i].createdAt == t[i].createdAt
  {
    assert |multiset(s)| == |s| && |multiset(t)| == |t|;
    NotLater(s, t, i);
    NotLater(t, s, i);
  }

  /** Counting off `limit` rows at a time from `from`, no boundary falls inside a whole second. */
  predicate CleanBoundaries(sorted: seq<Account>, from: nat, limit: nat)
    requires limit >= 1
    decreases |sorted| - from
  {
    from + limit < |sorted| ==>
      && WholeSecond(sorted[from + limit - 1].createdAt) != WholeSecond(sorted[from + limit].createdAt)
      && CleanBoundaries(sorted, from + limit, limit)
  }

  /** The first page takes exactly the rows before the second it ends in. */
  lemma CleanStep(sorted: seq<Account>, cursor: Cursor, limit: nat)
    requires limit >= 1 && NewestFirst(sorted) && More(sorted, cursor, limit)
    requires var end := PageEnd(sorted, cursor, limit);
      WholeSecond(sorted[end - 1].createdAt) != WholeSecond(sorted[end].createdAt)
    ensures PageStart(sorted, Next(sorted, cursor, limit)) == PageEnd(sorted, cursor, limit)
  {
    var end, next := PageEnd(sorted, cursor, limit), Next(sorted, cursor, limit);
    SplitAtStart(sorted, next);
    assert sorted[end - 1].createdAt >= sorted[end].createdAt;
    assert !Before(sorted[end - 1], next) && Before(sorted[end], next);
  }

  lemma SameStart(s: seq<Account>, t: seq<Account>, cursor: Cursor)
    requires NewestFirst(s) && NewestFirst(t) && multiset(s) == multiset(t)
    ensures |s| == |t| && PageStart(s, cursor) == PageStart(t, cursor)
  {
    assert |multiset(s)| == |s| && |multiset(t)| == |t|;
    forall i | 0 <= i < |s| ensures s[i].createdAt == t[i].createdAt {
      SameTimes(s, t, i);
    }
    StartUnique(t, cursor, PageStart(s, cursor));
  }

  /** One page on: the boundary it stops at is clean, and so are those after it. */
  lemma BoundaryStep(s: seq<Account>, sorted: seq<Account>, cursor: Cursor, limit: nat)
    requires limit >= 1 && NewestFirst(s) && NewestFirst(sorted) && multiset(s) == multiset(sorted)
    requires More(s, cursor, limit)
    ensures var end, next := PageEnd(s, cursor, limit), Next(s, cursor, limit);
      if WholeSecond(s[end - 1].createdAt) == WholeSecond(s[end].createdAt)
      then !CleanBoundaries(sorted, PageStart(sorted, cursor), limit)
      else
        && PageStart(s, next) == end
        && (CleanBoundaries(sorted, PageStart(sorted, cursor), limit) <==>
            CleanBoundaries(sorted, PageStart(sorted, next), limit))
  {
    var end, next := PageEnd(s, cursor, limit), Next(s, cursor, limit);
    SameStart(s, sorted, cursor);
    SameTimes(s, sorted, end - 1);
    SameTimes(s, sorted, end);
    if WholeSecond(s[end - 1].createdAt) != WholeSecond(s[end].createdAt) {
      CleanStep(s, cursor, limit);
      SameStart(s, sorted, next);
    }
  }

  /** When the page ends with a second, it holds all of a row that the next cursor skips. */
  lemma CleanPage(sorted: seq<Account>, cursor: Cursor, limit: nat, a: Account)
    requires limit >= 1 && NewestFirst(sorted) && More(sorted, cursor, limit)
    requires PageStart(sorted, Next(sorted, cursor, limit)) == PageEnd(sorted, cursor, limit)
    requires Before(a, cursor) && !Before(a, Next(sorted, cursor, limit))
    ensures multiset(Page(sorted, cursor, limit))[a] == multiset(sorted)[a]
  {
    PageCount(sorted, cursor, limit, a);
    SplitAtStart(sorted, Next(sorted, cursor, limit));
  }

  /** With clean boundaries every row before the cursor is served. */
  lemma {:induction false} CleanServesAll(
    all: multiset<Account>, limit: nat, cursor: Cursor, sorts: seq<seq<Account>>, sorted: seq<Account>, a: Account)
    requires limit >= 1 && Follows(all, limit, cursor, sorts) && Ends(limit, cursor, sorts) && SortOf(sorted, all)
    requires CleanBoundaries(sorted, PageStart(sorted, cursor), limit) && Before(a, cursor)
    ensures multiset(Served(limit, cursor, sorts))[a] == all[a]
    decreases |sorts|
  {
    var s, next := sorts[0], Next(sorts[0], cursor, limit);
    ServedCount(all, limit, cursor, sorts, a);
    if |sorts| == 1 {
      PageCount(s, cursor, limit, a);
      assert Served(limit, next, sorts[1..]) == [];
    } else {
      BoundaryStep(s, sorted, cursor, limit);
      if Before(a, next) {
        CleanServesAll(all, limit, next, sorts[1..], sorted, a);
      } else {
        CleanPage(s, cursor, limit, a);
      }
    }
  }

  lemma UncleanGoesOn(
    all: multiset<Account>, limit: nat, cursor: Cursor, sorts: seq<seq<Account>>, sorted: seq<Account>)
    requires limit >= 1 && Follows(all, limit, cursor, sorts) && Ends(limit, cursor, sorts) && SortOf(sorted, all)
    requires !CleanBoundaries(sorted, PageStart(sorted, cursor), limit)
    ensures More(sorts[0], cursor, limit) && |sorts| > 1
  {
    SameStart(sorts[0], sorted, cursor);
  }

  lemma AfterPageBefore(sorted: seq<Account>, cursor: Cursor, limit: nat)
    requires limit >= 1 && NewestFirst(sorted) && More(sorted, cursor, limit)
    ensures Before(sorted[PageEnd(sorted, cursor, limit)], cursor)
  {
    SplitAtStart(sorted, cursor);
  }

  /** The row is before the cursor and is served less often than it is there. */
  predicate Lost(all: multiset<Account>, limit: nat, cursor: Cursor, sorts: seq<seq<Account>>, a: Account)
    requires limit >= 1
  {
    Before(a, cursor) && multiset(Served(limit, cursor, sorts))[a] < all[a]
  }

  /** The page of `sorted` stops inside a whole second. */
  predicate Cuts(sorted: seq<Account>, cursor: Cursor, limit: nat)
    requires limit >= 1 && More(sorted, cursor, limit)
  {
    var end := PageEnd(sorted, cursor, limit);
    WholeSecond(sorted[end - 1].createdAt) == WholeSecond(sorted[end].createdAt)
  }

  lemma UncleanOnward(
    all: multiset<Account>, limit: nat, cursor: Cursor, sorts: seq<seq<Account>>, sorted: seq<Account>)
    requires limit >= 1 && Follows(all, limit, cursor, sorts) && Ends(limit, cursor, sorts) && SortOf(sorted, all)
    requires !CleanBoundaries(sorted, PageStart(sorted, cursor), limit)
    requires |sorts| > 1 && More(sorts[0], cursor, limit) && !Cuts(sorts[0], cursor, limit)
    ensures var next := Next(sorts[0], cursor, limit);
      && Follows(all, limit, next, sorts[1..]) && Ends(limit, next, sorts[1..])
      && !CleanBoundaries(sorted, PageStart(sorted, next), limit)
  {
    BoundaryStep(sorts[0], sorted, cursor, limit);
  }

  lemma NotInPage(sorted: seq<Account>, cursor: Cursor, limit: nat, a: Account)
    requires limit >= 1 && NewestFirst(sorted) && More(sorted, cursor, limit)
    requires Before(a, Next(sorted, cursor, limit))
    ensures multiset(Page(sorted, cursor, limit))[a] == 0
  {
    if a in Page(sorted, cursor, limit) {
      PageBeforeCursor(sorted, cursor, limit, a);
    }
  }

  /** What the later pages lose, the walk loses. */
  lemma StillLost(all: multiset<Account>, limit: nat, cursor: Cursor, sorts: seq<seq<Account>>, a: Account)
    requires limit >= 1 && Follows(all, limit, cursor, sorts) && More(sorts[0], cursor, limit)
    requires Lost(all, limit, Next(sorts[0], cursor, limit), sorts[1..], a)
    ensures Lost(all, limit, cursor, sorts, a)
  {
    NextIsEarlier(sorts[0], cursor, limit, a);
    NotInPage(sorts[0], cursor, limit, a);
  }

  lemma AfterThePage(sorted: seq<Account>, cursor: Cursor, limit: nat)
    requires limit >= 1 && More(sorted, cursor, limit)
    ensures var a := sorted[PageEnd(sorted, cursor, limit)];
      multiset(Page(sorted, cursor, limit))[a] < multiset(sorted)[a]
  {
    var start, end := PageStart(sorted, cursor), PageEnd(sorted, cursor, limit);
    var a := sorted[end];
    SplitCount(sorted, end, a);
    SplitCount(sorted[..end], start, a);
    assert sorted[..end][start..] == Page(sorted, cursor, limit);
    assert a in sorted[end..];
  }

  /** The row after a boundary inside its second is served by no later page. */
  lemma SkippedForGood(all: multiset<Account>, limit: nat, cursor: Cursor, sorts: seq<seq<Account>>)
    requires limit >= 1 && Follows(all, limit, cursor, sorts) && More(sorts[0], cursor, limit) && |sorts| > 1
    requires var s, end := sorts[0], PageEnd(sorts[0], cursor, limit);
      WholeSecond(s[end - 1].createdAt) == WholeSecond(s[end].createdAt)
    ensures var a := sorts[0][PageEnd(sorts[0], cursor, limit)];
      multiset(Served(limit, cursor, sorts))[a] < all[a]
  {
    var s, next := sorts[0], Next(sorts[0], cursor, limit);
    var a := s[PageEnd(s, cursor, limit)];
    assert !Before(a, next);
    if a in Served(limit, next, sorts[1..]) {
      ServedBefore(all, limit, next, sorts[1..], a);
    }
    AfterThePage(s, cursor, limit);
  }

  lemma CutLoses(all: multiset<Account>, limit: nat, cursor: Cursor, sorts: seq<seq<Account>>) returns (a: Account)
    requires limit >= 1 && Follows(all, limit, cursor, sorts) && |sorts| > 1
    requires More(sorts[0], cursor, limit) && Cuts(sorts[0], cursor, limit)
    ensures Lost(all, limit, cursor, sorts, a)
  {
    a := sorts[0][PageEnd(sorts[0], cursor, limit)];
    AfterPageBefore(sorts[0], cursor, limit);
    SkippedForGood(all, limit, cursor, sorts);
  }

  /** A boundary inside a second loses a row: the one just after the boundary. */
  lemma {:induction false} UncleanLoses(
    all: multiset<Account>, limit: nat, cursor: Cursor, sorts: seq<seq<Account>>, sorted: seq<Account>)
    returns (a: Account)
    requires limit >= 1 && Follows(all, limit, cursor, sorts) && Ends(limit, cursor, sorts) && SortOf(sorted, all)
    requires !CleanBoundaries(sorted, PageStart(sorted, cursor), limit)
    ensures Lost(all, limit, cursor, sorts, a)
    decreases |sorts|
  {
    UncleanGoesOn(all, limit, cursor, sorts, sorted);
    if Cuts(sorts[0], cursor, limit) {
      a := CutLoses(all, limit, cursor, sorts);
    } else {
      UncleanOnward(all, limit, cursor, sorts, sorted);
      a := UncleanLoses(all, limit, Next(sorts[0], cursor, limit), sorts[1..], sorted);
      StillLost(all, limit, cursor, sorts, a);
    }
  }

  /**
   A walk from the first page to the last serves every row exactly when counting off `limit` rows at
   a time, in any newest-first order, never stops inside a whole second.
   */
  lemma CompleteIff(all: multiset<Account>, limit: nat, cursor: Cursor, sorts: seq<seq<Account>>, sorted: seq<Account>)
    requires limit >= 1 && !cursor.At? && SortOf(sorted, all)
    requires Follows(all, limit, cursor, sorts) && Ends(limit, cursor, sorts)
    ensures multiset(Served(limit, cursor, sorts)) == all <==> CleanBoundaries(sorted, 0, limit)
  {
    assert PageStart(sorted, cursor) == 0;
    if CleanBoundaries(sorted, 0, limit) {
      forall a ensures multiset(Served(limit, cursor, sorts))[a] == all[a] {
        CleanServesAll(all, limit, cursor, sorts, sorted, a);
      }
    } else {
      var a := UncleanLoses(all, limit, cursor, sorts, sorted);
    }
  }

  lemma NextStartsLater(sorted: seq<Account>, cursor: Cursor, limit: nat)
    requires limit >= 1 && NewestFirst(sorted) && More(sorted, cursor, limit)
    ensures PageEnd(sorted, cursor, limit) <= PageStart(sorted, Next(sorted, cursor, limit)) <= |sorted|
  {
    var end, next := PageEnd(sorted, cursor, limit), Next(sorted, cursor, limit);
    SplitAtStart(sorted, next);
    assert !Before(sorted[end - 1], next);
  }

  /** From any cursor, with the rows in any order the sort may give, following the cursors comes to an end. */
  lemma {:induction false} WalkEnds(all: multiset<Account>, limit: nat, cursor: Cursor, sorted: seq<Account>)
    returns (sorts: seq<seq<Account>>)
    requires limit >= 1 && SortOf(sorted, all)
    ensures Follows(all, limit, cursor, sorts) && Ends(limit, cursor, sorts)
    decreases |sorted| - PageStart(sorted, cursor)
  {
    if More(sorted, cursor, limit) {
      NextStartsLater(sorted, cursor, limit);
      var rest := WalkEnds(all, limit, Next(sorted, cursor, limit), sorted);
      sorts := [sorted] + rest;
      assert sorts[1..] == rest;
    } else {
      sorts := [sorted];
    }
  }

  /** Two rows of one whole second, a row a page: no finished walk serves them both. */
  lemma SameSecondLost(a: Account, b: Account, cursor: Cursor, sorts: seq<seq<Account>>)
    requires WholeSecond(a.createdAt) == WholeSecond(b.createdAt) && a.createdAt >= b.createdAt && !cursor.At?
    requires Follows(multiset{a, b}, 1, cursor, sorts) && Ends(1, cursor, sorts)
    ensures multiset(Served(1, cursor, sorts)) != multiset{a, b}
  {
    assert multiset([a, b]) == multiset{a, b};
    CompleteIff(multiset{a, b}, 1, cursor, sorts, [a, b]);
  }

  /** And there is such a walk. */
  lemma RowLost() returns (a: Account, b: Account, sorts: seq<seq<Account>>)
    ensures a != b && Follows(multiset{a, b}, 1, NoCursor, sorts) && Ends(1, NoCursor, sorts)
    ensures multiset(Served(1, NoCursor, sorts)) != multiset{a, b}
  {
    a, b := Account("newer", 2), Account("older", 1);
    assert multiset([a, b]) == multiset{a, b};
    sorts := WalkEnds(multiset{a, b}, 1, NoCursor, [a, b]);
    SameSecondLost(a, b, NoCursor, sorts);
  }

  /** The boundary after `end` rows, if rows follow it, is not inside a whole second. */
  predicate CleanAt(sorted: seq<Account>, end: nat) {
    0 < end < |sorted| ==> WholeSecond(sorted[end - 1].createdAt) != WholeSecond(sorted[end].createdAt)
  }

  lemma {:induction false} Multiples(n: nat, k: nat, limit: nat)
    requires n < k
    ensures n * limit + limit <= k * limit && (k == n + 1 ==> k * limit == n * limit + limit)
  {
    assert k * limit == (k - 1) * limit + limit;
    if k > n + 1 {
      Multiples(n, k - 1, limit);
    }
  }

  /** Boundaries read one by one. */
  lemma {:induction false} CleanBoundariesMeans(sorted: seq<Account>, limit: nat, n: nat)
    requires limit >= 1
    ensures CleanBoundaries(sorted, n * limit, limit) <==> forall k :: n < k ==> CleanAt(sorted, k * limit)
    decreases |sorted| - n * limit
  {
    var from := n * limit;
    if from + limit < |sorted| {
      Multiples(n, n + 1, limit);
      CleanBoundariesMeans(sorted, limit, n + 1);
      assert CleanAt(sorted, (n + 1) * limit) <==>
        WholeSecond(sorted[from + limit - 1].createdAt) != WholeSecond(sorted[from + limit].createdAt);
    } else {
      forall k | n < k ensures CleanAt(sorted, k * limit) {
        Multiples(n, k, limit);
      }
    }
  }
}
