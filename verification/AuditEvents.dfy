/**
 The audit event listing: the newest rows of an account (and, on request, of no account) are read up
 to a fixed window, merged, sorted and filtered until the limit is reached. What may go wrong is that
 rows beyond the window match the filters.
 */
module AuditEvents {

  import Recency

  const LIMIT_DEFAULT := 50
  const LIMIT_MAX := 100
  const OVER_READ := 200

  /** `appId` is empty when the row's data has none; `at` counts from the zero time. */
  datatype Event = Event(id: nat, at: int, kind: string, appId: string)

  /** `since` is zero when absent, `kindPrefix` and `appId` are empty when absent. */
  datatype Filters = Filters(since: int, kindPrefix: string, appId: string)

  datatype Answer = BadRequest | Events(rows: seq<Event>, limit: nat)

  /** A query parameter that may be absent, fail to parse, or parse to a number. */
  datatype Parameter = Absent | Malformed | Number(n: int)

  predicate Matches(f: Filters, e: Event) {
    && (f.since != 0 ==> e.at >= f.since)
    && (f.kindPrefix != "" ==> f.kindPrefix <= e.kind)
    && (f.appId != "" ==> e.appId == f.appId)
  }

  function Matching(f: Filters, rows: seq<Event>): (r: seq<Event>) {
    if rows == [] then []
    else
      var rest := Matching(f, rows[..|rows| - 1]);
      if Matches(f, rows[|rows| - 1]) then rest + [rows[|rows| - 1]] else rest
  }

  function At(e: Event): int { e.at }

  predicate NewestFirst(rows: seq<Event>) { Recency.NewestFirst(At, rows) }

  /** What the store returns for a subject: its newest rows, up to the window. */
  function Window(history: seq<Event>): seq<Event> {
    if |history| > OVER_READ then history[..OVER_READ] else history
  }

  /** The rows the window leaves out. */
  function Beyond(history: seq<Event>): seq<Event> {
    if |history| > OVER_READ then history[OVER_READ..] else []
  }

  /** `r` holds rows, newest first, and no row it leaves out is newer than one it holds. */
  ghost predicate Recent(r: seq<Event>, rows: multiset<Event>) {
    && NewestFirst(r)
    && multiset(r) <= rows
    && forall e, x :: e in rows - multiset(r) && x in r ==> e.at <= x.at
  }

  /** `r` is a right answer: the `limit` newest of `rows`, newest first. */
  ghost predicate Newest(r: seq<Event>, rows: multiset<Event>, limit: nat) {
    && Recent(r, rows)
    && |r| == if |rows| < limit then |rows| else limit
  }

  // ---------------------------------------------------------------------------------------
  // What is asked and what is read
  // ---------------------------------------------------------------------------------------

  /** The rows of no account are listed only on request. */
  function Others(anonymous: seq<Event>, includeAnonymous: bool): seq<Event> {
    if includeAnonymous then anonymous else []
  }

  function Asked(since: Parameter, kindPrefix: string, appId: string): Filters {
    Filters(if since.Number? then since.n else 0, kindPrefix, appId)
  }

  function EffectiveLimit(limit: Parameter): (n: nat)
    ensures 1 <= n <= LIMIT_MAX
  {
    if limit.Number? && limit.n >= 1 then if limit.n > LIMIT_MAX then LIMIT_MAX else limit.n else LIMIT_DEFAULT
  }

  /** The matching rows inside the windows. */
  function Read(own: seq<Event>, others: seq<Event>, f: Filters): multiset<Event> {
    multiset(Matching(f, Window(own))) + multiset(Matching(f, Window(others)))
  }

  /** The matching rows beyond the windows. */
  function Unread(own: seq<Event>, others: seq<Event>, f: Filters): multiset<Event> {
    multiset(Matching(f, Beyond(own))) + multiset(Matching(f, Beyond(others)))
  }

  /** All matching rows there are. */
  function Everything(own: seq<Event>, others: seq<Event>, f: Filters): multiset<Event> {
    multiset(Matching(f, own)) + multiset(Matching(f, others))
  }

  function Take(rows: seq<Event>, limit: nat): seq<Event> {
    if |rows| < limit then rows else rows[..limit]
  }

  // ---------------------------------------------------------------------------------------
  // Filtering
  // ---------------------------------------------------------------------------------------

  lemma {:induction false} MatchingConcat(f: Filters, a: seq<Event>, b: seq<Event>)
    ensures Matching(f, a + b) == Matching(f, a) + Matching(f, b)
  {
    if b == [] {
      assert a + b == a;
    } else {
      assert (a + b)[..|a + b| - 1] == a + b[..|b| - 1];
      MatchingConcat(f, a, b[..|b| - 1]);
    }
  }

  lemma MatchingPrefix(f: Filters, rows: seq<Event>, i: nat)
    requires i <= |rows|
    ensures Matching(f, rows[..i]) <= Matching(f, rows)
  {
    assert rows == rows[..i] + rows[i..];
    MatchingConcat(f, rows[..i], rows[i..]);
  }

  // ---------------------------------------------------------------------------------------
  // The handler
  // ---------------------------------------------------------------------------------------

  method FilterUpTo(f: Filters, rows: seq<Event>, limit: nat) returns (out: seq<Event>)
    requires limit >= 1
    ensures out == Take(Matching(f, rows), limit)
  {
    out := [];
    for i := 0 to |rows|
      invariant out == Matching(f, rows[..i]) && |out| < limit
    {
      assert rows[..i + 1][..i] == rows[..i];
      if f.since != 0 && rows[i].at < f.since {
        continue;
      }
      if f.kindPrefix != "" && !(f.kindPrefix <= rows[i].kind) {
        continue;
      }
      if f.appId != "" && rows[i].appId != f.appId {
        continue;
      }
      out := out + [rows[i]];
      if |out| >= limit {
        MatchingPrefix(f, rows, i + 1);
        return;
      }
    }
    assert rows[..|rows|] == rows;
  }

  lemma {:induction false} MatchingCount(f: Filters, rows: seq<Event>, e: Event)
    ensures multiset(Matching(f, rows))[e] == if Matches(f, e) then multiset(rows)[e] else 0
  {
    if rows != [] {
      var k := |rows| - 1;
      MatchingCount(f, rows[..k], e);
      assert rows == rows[..k] + [rows[k]];
    }
  }

  lemma MatchingPermuted(f: Filters, a: seq<Event>, b: seq<Event>)
    requires multiset(a) == multiset(b)
    ensures multiset(Matching(f, a)) == multiset(Matching(f, b))
  {
    forall e ensures multiset(Matching(f, a))[e] == multiset(Matching(f, b))[e] {
      MatchingCount(f, a, e);
      MatchingCount(f, b, e);
    }
  }

  lemma {:induction false} MatchingMember(f: Filters, rows: seq<Event>, e: Event)
    ensures e in Matching(f, rows) <==> e in rows && Matches(f, e)
  {
    MatchingCount(f, rows, e);
    assert e in rows <==> multiset(rows)[e] > 0;
    assert e in Matching(f, rows) <==> multiset(Matching(f, rows))[e] > 0;
  }

  lemma {:induction false} MatchingOrdered(f: Filters, rows: seq<Event>)
    requires NewestFirst(rows)
    ensures NewestFirst(Matching(f, rows))
  {
    if rows != [] {
      var k := |rows| - 1;
      MatchingOrdered(f, rows[..k]);
      var rest := Matching(f, rows[..k]);
      forall i | 0 <= i < |rest| ensures rest[i].at >= rows[k].at {
        MatchingMember(f, rows[..k], rest[i]);
      }
    }
  }

  lemma HeadIsRecent(r: seq<Event>, rest: seq<Event>)
    requires NewestFirst(r + rest)
    ensures Recent(r, multiset(r + rest))
  {
    forall i, j | 0 <= i < j < |r| ensures r[i].at >= r[j].at {
      assert (r + rest)[i] == r[i] && (r + rest)[j] == r[j];
    }
    forall i, j | 0 <= i < |r| && 0 <= j < |rest| ensures rest[j].at <= r[i].at {
      assert (r + rest)[i] == r[i] && (r + rest)[|r| + j] == rest[j];
    }
    assert multiset(r + rest) - multiset(r) == multiset(rest);
  }

  lemma PrefixIsNewest(rows: seq<Event>, limit: nat)
    requires NewestFirst(rows)
    ensures Newest(Take(rows, limit), multiset(rows), limit)
  {
    var r, rest := Take(rows, limit), rows[|Take(rows, limit)|..];
    assert rows == r + rest;
    HeadIsRecent(r, rest);
    assert |multiset(rows)| == |rows|;
  }

  lemma ReadMember(own: seq<Event>, others: seq<Event>, f: Filters, e: Event)
    ensures e in Read(own, others, f) <==> Matches(f, e) && (e in Window(own) || e in Window(others))
  {
    MatchingMember(f, Window(own), e);
    MatchingMember(f, Window(others), e);
  }

  /** A right answer lists matching rows of the windows; one it leaves out is no newer than any of a full list. */
  lemma NewestLists(own: seq<Event>, others: seq<Event>, f: Filters, rows: seq<Event>, limit: nat, e: Event)
    requires Newest(rows, Read(own, others, f), limit)
    ensures e in rows ==> e in Read(own, others, f)
    ensures e in Read(own, others, f) && e !in rows ==>
      |rows| == limit && forall x :: x in rows ==> e.at <= x.at
  {
    var read := Read(own, others, f);
    assert e in rows ==> multiset(rows)[e] > 0;
    if e in read && e !in rows {
      assert multiset(rows)[e] == 0;
      assert e in read - multiset(rows);
      assert read == multiset(rows) + (read - multiset(rows));
    }
  }

  /** The first matches of the sorted windows are a right answer. */
  lemma SortedWindows(own: seq<Event>, others: seq<Event>, sorted: seq<Event>, f: Filters, limit: nat)
    requires NewestFirst(sorted) && multiset(sorted) == multiset(Window(own) + Window(others))
    ensures Newest(Take(Matching(f, sorted), limit), Read(own, others, f), limit)
  {
    MatchingOrdered(f, sorted);
    PrefixIsNewest(Matching(f, sorted), limit);
    MatchingPermuted(f, sorted, Window(own) + Window(others));
    MatchingConcat(f, Window(own), Window(others));
  }

  /** `own` and `anonymous` are the whole histories, newest first. */
  method ListAuditEvents(
    own: seq<Event>, anonymous: seq<Event>, since: Parameter, kindPrefix: string, appId: string,
    includeAnonymous: bool, limit: Parameter)
    returns (answer: Answer)
    requires NewestFirst(own) && NewestFirst(anonymous)
    ensures answer.BadRequest? <==> since.Malformed? || limit.Malformed? || (limit.Number? && limit.n < 1)
    ensures answer.Events? ==>
      && answer.limit == EffectiveLimit(limit)
      && Newest(
           answer.rows, Read(own, Others(anonymous, includeAnonymous), Asked(since, kindPrefix, appId)), answer.limit)
    ensures answer.Events? ==>
      answer.limit == if limit.Absent? then 50 else if limit.n > 100 then 100 else limit.n
    ensures answer.Events? ==> forall e :: e in answer.rows ==>
      && kindPrefix <= e.kind && (appId != "" ==> e.appId == appId)
      && (since.Number? && since.n != 0 ==> e.at >= since.n)
      && (|| e in (if |own| > 200 then own[..200] else own)
          || (includeAnonymous && e in (if |anonymous| > 200 then anonymous[..200] else anonymous)))
    ensures answer.Events? ==> forall e: Event ::
      && kindPrefix <= e.kind && (appId != "" ==> e.appId == appId)
      && (since.Number? && since.n != 0 ==> e.at >= since.n)
      && (|| e in (if |own| > 200 then own[..200] else own)
          || (includeAnonymous && e in (if |anonymous| > 200 then anonymous[..200] else anonymous)))
      ==> e in answer.rows || (|answer.rows| == answer.limit && forall x :: x in answer.rows ==> e.at <= x.at)
  {
    if since.Malformed? {
      return BadRequest;
    }
    if limit.Malformed? || (limit.Number? && limit.n < 1) {
      return BadRequest;
    }
    var f, n := Asked(since, kindPrefix, appId), EffectiveLimit(limit);
    var all := Window(own);
    if includeAnonymous {
      all := all + Window(anonymous);
    }
    ghost var others := Others(anonymous, includeAnonymous);
    assert all == Window(own) + Window(others);
    var sorted := Recency.SortNewestFirst(At, all);
    var out := FilterUpTo(f, sorted, n);
    SortedWindows(own, others, sorted, f, n);
    forall e: Event
      ensures e in out ==> Matches(f, e) && (e in Window(own) || e in Window(others))
      ensures Matches(f, e) && (e in Window(own) || e in Window(others)) ==>
        e in out || (|out| == n && forall x :: x in out ==> e.at <= x.at)
    {
      ReadMember(own, others, f, e);
      NewestLists(own, others, f, out, n, e);
    }
    answer := Events(out, n);
  }

  // ---------------------------------------------------------------------------------------
  // Against the whole history
  // ---------------------------------------------------------------------------------------

  lemma WindowAndBeyond(f: Filters, history: seq<Event>)
    ensures multiset(Matching(f, history)) ==
      multiset(Matching(f, Window(history))) + multiset(Matching(f, Beyond(history)))
  {
    assert history == Window(history) + Beyond(history);
    MatchingConcat(f, Window(history), Beyond(history));
  }

  lemma EverythingSplits(own: seq<Event>, others: seq<Event>, f: Filters)
    ensures Everything(own, others, f) == Read(own, others, f) + Unread(own, others, f)
  {
    WindowAndBeyond(f, own);
    WindowAndBeyond(f, others);
  }

  /** The rows no older than `t`. */
  function NotOlder(rows: seq<Event>, t: int): seq<Event> {
    if rows == [] then []
    else
      var rest := NotOlder(rows[..|rows| - 1], t);
      if rows[|rows| - 1].at >= t then rest + [rows[|rows| - 1]] else rest
  }

  lemma {:induction false} NotOlderCount(rows: seq<Event>, t: int, e: Event)
    ensures multiset(NotOlder(rows, t))[e] == if e.at >= t then multiset(rows)[e] else 0
  {
    if rows != [] {
      var k := |rows| - 1;
      NotOlderCount(rows[..k], t, e);
      assert rows == rows[..k] + [rows[k]];
    }
  }

  lemma NotOlderIs(rows: seq<Event>, t: int)
    ensures multiset(NotOlder(rows, t)) <= multiset(rows)
    ensures forall e :: e in multiset(NotOlder(rows, t)) ==> e.at >= t
    ensures |multiset(NotOlder(rows, t))| == |NotOlder(rows, t)|
  {
    forall e ensures multiset(NotOlder(rows, t))[e] == if e.at >= t then multiset(rows)[e] else 0 {
      NotOlderCount(rows, t, e);
    }
  }

  /** With `limit` rows at least as new as `e` to choose from, the answer is full and no row of it is older than `e`. */
  lemma CrowdedOut(r: seq<Event>, read: multiset<Event>, crowd: multiset<Event>, limit: nat, e: Event)
    requires Newest(r, read, limit) && crowd <= read && |crowd| >= limit
    requires forall w :: w in crowd ==> e.at <= w.at
    ensures |r| == limit && forall x :: x in r ==> e.at <= x.at
  {
    Recency.NoLarger(crowd, read);
    assert |multiset(r)| == |r|;
    if forall w :: crowd[w] <= multiset(r)[w] {
      assert multiset(r) == crowd + (multiset(r) - crowd);
      assert multiset(r) - crowd == multiset{};
      forall x | x in r ensures x in crowd {
        assert x in multiset(r);
      }
    } else {
      var w :| crowd[w] > multiset(r)[w];
      assert w in read - multiset(r);
    }
  }

  /** `r` chosen from `rows` is full and nowhere older than `e` exactly when `limit` of them are no older than `e`. */
  lemma FullAndNoOlderIff(r: seq<Event>, rows: seq<Event>, limit: nat, e: Event)
    requires Newest(r, multiset(rows), limit)
    ensures (|r| == limit && forall x :: x in r ==> e.at <= x.at) <==> |NotOlder(rows, e.at)| >= limit
  {
    var crowd := multiset(NotOlder(rows, e.at));
    NotOlderIs(rows, e.at);
    if |NotOlder(rows, e.at)| >= limit {
      CrowdedOut(r, multiset(rows), crowd, limit, e);
    }
    if |r| == limit && forall x :: x in r ==> e.at <= x.at {
      forall x ensures multiset(r)[x] <= crowd[x] {
        NotOlderCount(rows, e.at, x);
        assert x in multiset(r) ==> x in r;
      }
      Recency.NoLarger(multiset(r), crowd);
      assert |multiset(r)| == |r|;
    }
  }

  lemma StillNewestIff(r: seq<Event>, read: multiset<Event>, unread: multiset<Event>, limit: nat)
    requires limit >= 1 && Newest(r, read, limit)
    ensures Newest(r, read + unread, limit) <==>
      forall e :: e in unread ==> |r| == limit && forall x :: x in r ==> e.at <= x.at
  {
    var all := read + unread;
    assert all - multiset(r) == (read - multiset(r)) + unread;
    if unread == multiset{} {
      assert all == read;
    } else {
      var e :| e in unread;
      assert |unread| > 0;
    }
  }

  /** The matching rows inside the windows, one after the other. */
  function InWindows(own: seq<Event>, others: seq<Event>, f: Filters): seq<Event> {
    Matching(f, Window(own)) + Matching(f, Window(others))
  }

  /**
   An answer is the newest of the whole history exactly when, for every match beyond the windows, at
   least `limit` matches inside them are no older.
   */
  lemma AnswerRightIff(own: seq<Event>, others: seq<Event>, f: Filters, limit: nat, r: seq<Event>)
    requires limit >= 1 && Newest(r, Read(own, others, f), limit)
    ensures Newest(r, Everything(own, others, f), limit) <==>
      forall e :: e in Unread(own, others, f) ==> |NotOlder(InWindows(own, others, f), e.at)| >= limit
  {
    EverythingSplits(own, others, f);
    StillNewestIff(r, Read(own, others, f), Unread(own, others, f), limit);
    forall e | e in Unread(own, others, f)
      ensures (|r| == limit && forall x :: x in r ==> e.at <= x.at) <==>
        |NotOlder(InWindows(own, others, f), e.at)| >= limit
    {
      FullAndNoOlderIff(r, InWindows(own, others, f), limit, e);
    }
  }

  /** Histories inside the window are always answered in full. */
  lemma ShortHistoriesAnswered(own: seq<Event>, others: seq<Event>, f: Filters, limit: nat, r: seq<Event>)
    requires limit >= 1 && Newest(r, Read(own, others, f), limit)
    requires |own| <= OVER_READ && |others| <= OVER_READ
    ensures Newest(r, Everything(own, others, f), limit)
  {
    AnswerRightIff(own, others, f, limit, r);
  }

  lemma BeyondIsOlder(history: seq<Event>, f: Filters, e: Event, w: Event)
    requires NewestFirst(history) && e in Matching(f, Beyond(history)) && w in Window(history)
    ensures |Window(history)| == OVER_READ && Matches(f, e) && e.at <= w.at
  {
    MatchingMember(f, Beyond(history), e);
    var i :| 0 <= i < |Window(history)| && Window(history)[i] == w;
    var j :| 0 <= j < |Beyond(history)| && Beyond(history)[j] == e;
    assert history[i] == w && history[OVER_READ + j] == e;
  }

  /**
   Without the rows of no account, what is listed is always the newest part of the whole history; it
   may only be short, and it is short exactly when the window holds fewer matches than the limit and
   a match lies beyond it.
   */
  lemma OwnEventsRightIff(own: seq<Event>, f: Filters, limit: nat, r: seq<Event>)
    requires limit >= 1 && NewestFirst(own) && Newest(r, Read(own, [], f), limit)
    ensures Recent(r, Everything(own, [], f))
    ensures Newest(r, Everything(own, [], f), limit) <==>
      |Matching(f, Window(own))| >= limit || Matching(f, Beyond(own)) == []
  {
    EverythingSplits(own, [], f);
    var read, unread := Read(own, [], f), Unread(own, [], f);
    StillNewestIff(r, read, unread, limit);
    assert unread == multiset(Matching(f, Beyond(own))) && read == multiset(Matching(f, Window(own)));
    forall e, x | e in unread && x in r ensures e.at <= x.at {
      assert x in multiset(r);
      MatchingMember(f, Window(own), x);
      BeyondIsOlder(own, f, e, x);
    }
    assert Everything(own, [], f) - multiset(r) == (read - multiset(r)) + unread;
    assert Matching(f, Beyond(own)) != [] ==> Matching(f, Beyond(own))[0] in unread;
    assert |read| == |Matching(f, Window(own))|;
  }

  // ---------------------------------------------------------------------------------------
  // With the rows of no account merged in
  // ---------------------------------------------------------------------------------------

  predicate OnlySince(f: Filters) { f.kindPrefix == "" && f.appId == "" }

  lemma {:induction false} AllMatch(f: Filters, rows: seq<Event>)
    requires forall w :: w in rows ==> Matches(f, w)
    ensures Matching(f, rows) == rows
  {
    if rows != [] {
      AllMatch(f, rows[..|rows| - 1]);
    }
  }

  /** A match beyond the window means, under a time filter alone, that the whole window matches. */
  lemma WholeWindowMatches(history: seq<Event>, f: Filters, e: Event)
    requires NewestFirst(history) && OnlySince(f) && e in Matching(f, Beyond(history))
    ensures |Matching(f, Window(history))| == OVER_READ
    ensures forall w :: w in Matching(f, Window(history)) ==> e.at <= w.at
  {
    var window := Window(history);
    MatchingMember(f, Beyond(history), e);
    assert |history| > OVER_READ;
    forall w | w in window ensures Matches(f, w) && e.at <= w.at {
      BeyondIsOlder(history, f, e, w);
    }
    AllMatch(f, window);
  }

  lemma UnreadCrowdedOut(own: seq<Event>, others: seq<Event>, f: Filters, limit: nat, e: Event)
    requires limit <= LIMIT_MAX && NewestFirst(own) && NewestFirst(others) && OnlySince(f)
    requires e in Unread(own, others, f)
    ensures |NotOlder(InWindows(own, others, f), e.at)| >= limit
  {
    var history := if e in Matching(f, Beyond(own)) then own else others;
    assert e in Matching(f, Beyond(history));
    WholeWindowMatches(history, f, e);
    var window, rows := Matching(f, Window(history)), InWindows(own, others, f);
    forall w ensures multiset(window)[w] <= multiset(NotOlder(rows, e.at))[w] {
      NotOlderCount(rows, e.at, w);
      assert w in multiset(window) ==> w in window;
    }
    Recency.NoLarger(multiset(window), multiset(NotOlder(rows, e.at)));
    NotOlderIs(rows, e.at);
    assert |multiset(window)| == OVER_READ;
  }

  /** Filtering by time alone, the merged listing is always right, however long the histories. */
  lemma SinceAloneIsRight(own: seq<Event>, others: seq<Event>, f: Filters, limit: nat, r: seq<Event>)
    requires 1 <= limit <= LIMIT_MAX && NewestFirst(own) && NewestFirst(others) && OnlySince(f)
    requires Newest(r, Read(own, others, f), limit)
    ensures Newest(r, Everything(own, others, f), limit)
  {
    forall e | e in Unread(own, others, f) ensures |NotOlder(InWindows(own, others, f), e.at)| >= limit {
      UnreadCrowdedOut(own, others, f, limit, e);
    }
    AnswerRightIff(own, others, f, limit, r);
  }

  lemma {:induction false} NoneMatch(f: Filters, rows: seq<Event>)
    requires forall w :: w in rows ==> !Matches(f, w)
    ensures Matching(f, rows) == []
  {
    if rows != [] {
      NoneMatch(f, rows[..|rows| - 1]);
    }
  }

  lemma HiddenSplit(noise: seq<Event>, hidden: Event, stray: Event, f: Filters)
    requires |noise| == OVER_READ && (forall w :: w in noise ==> !Matches(f, w))
    requires Matches(f, hidden) && Matches(f, stray)
    ensures Read(noise + [hidden], [stray], f) == multiset{stray}
    ensures Unread(noise + [hidden], [stray], f) == multiset{hidden}
  {
    var own := noise + [hidden];
    assert Window(own) == noise && Beyond(own) == [hidden];
    NoneMatch(f, noise);
    AllMatch(f, [stray]);
    AllMatch(f, [hidden]);
  }

  /**
   With another filter the merged listing can be wrong, not just short: a window of newer rows that do
   not match hides a match of the account's own, and an older row of no account is listed in its place.
   */
  lemma HiddenByNewerRows(noise: seq<Event>, hidden: Event, stray: Event, f: Filters, limit: nat, r: seq<Event>)
    requires |noise| == OVER_READ && (forall w :: w in noise ==> !Matches(f, w))
    requires Matches(f, hidden) && Matches(f, stray) && hidden.at > stray.at
    requires limit >= 1 && Newest(r, Read(noise + [hidden], [stray], f), limit)
    ensures r == [stray] && !Recent(r, Everything(noise + [hidden], [stray], f))
  {
    HiddenSplit(noise, hidden, stray, f);
    EverythingSplits(noise + [hidden], [stray], f);
    assert r[0] in multiset(r);
    assert hidden in Everything(noise + [hidden], [stray], f) - multiset(r) && stray in r;
  }

  /** Such histories exist. */
  lemma HiddenRowExists() returns (noise: seq<Event>, hidden: Event, stray: Event, f: Filters)
    ensures |noise| == OVER_READ && (forall w :: w in noise ==> !Matches(f, w)) && NewestFirst(noise + [hidden])
    ensures Matches(f, hidden) && Matches(f, stray) && hidden.at > stray.at
  {
    f := Filters(0, "key.", "");
    noise := seq(OVER_READ, i requires 0 <= i < OVER_READ => Event(i, 1000 - i, "deploy.done", ""));
    hidden, stray := Event(OVER_READ, 800, "key.created", ""), Event(OVER_READ + 1, 10, "key.created", "");
    assert "key."[0] != "deploy.done"[0];
  }

  /** The account's own listing can be short: the hidden match is all there is, and nothing is listed. */
  lemma OwnEventsShort() returns (own: seq<Event>, f: Filters)
    ensures NewestFirst(own)
    ensures forall r, limit :: limit >= 1 && Newest(r, Read(own, [], f), limit) ==>
      r == [] && !Newest(r, Everything(own, [], f), limit)
  {
    var noise, hidden, stray;
    noise, hidden, stray, f := HiddenRowExists();
    own := noise + [hidden];
    assert Window(own) == noise && Beyond(own) == [hidden];
    NoneMatch(f, noise);
    AllMatch(f, [hidden]);
    forall r, limit | limit >= 1 && Newest(r, Read(own, [], f), limit)
      ensures r == [] && !Newest(r, Everything(own, [], f), limit)
    {
      OwnEventsRightIff(own, f, limit, r);
    }
  }
}
