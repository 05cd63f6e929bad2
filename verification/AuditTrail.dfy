/**
 The audit trail of an account export: the account's GDPR requests and its security events, each
 newest first with timestamps as RFC 3339 text, merged into one timeline by comparing the text.
 */
module AuditTrail {

  import Recency
  import opened Rfc3339

  datatype Row = Row(source: string, requestedAt: string, detail: string)

  /** No row's text is less than the text of a row after it. */
  predicate Descending(rows: seq<Row>) {
    forall i, j :: 0 <= i < j < |rows| ==> !Less(rows[i].requestedAt, rows[j].requestedAt)
  }

  /** The rows with one timestamp, in the order they have in the list. */
  function Restrict(rows: seq<Row>, stamp: string): seq<Row> {
    if rows == [] then []
    else if rows[0].requestedAt == stamp then [rows[0]] + Restrict(rows[1..], stamp)
    else Restrict(rows[1..], stamp)
  }

  /** `r` is `rows` sorted newest first with rows of one timestamp left in order. */
  ghost predicate StableSort(r: seq<Row>, rows: seq<Row>) {
    Descending(r) && forall stamp :: Restrict(r, stamp) == Restrict(rows, stamp)
  }

  function Merge(gdpr: seq<Row>, events: seq<Row>): seq<Row> {
    if gdpr == [] then events
    else if events == [] then gdpr
    else if !Less(gdpr[0].requestedAt, events[0].requestedAt) then [gdpr[0]] + Merge(gdpr[1..], events)
    else [events[0]] + Merge(gdpr, events[1..])
  }

  method AppendRest(out: seq<Row>, rows: seq<Row>, from: nat) returns (r: seq<Row>)
    requires from <= |rows|
    ensures r == out + rows[from..]
  {
    r := out;
    for i := from to |rows|
      invariant r == out + rows[from..i]
    {
      r := r + [rows[i]];
    }
  }

  predicate Joined(out: seq<Row>, rest: seq<Row>, whole: seq<Row>) { out + rest == whole }

  lemma MoveOver(out: seq<Row>, x: Row, rest: seq<Row>)
    ensures forall whole :: Joined(out, [x] + rest, whole) ==> Joined(out + [x], rest, whole)
  {
    assert out + ([x] + rest) == out + [x] + rest;
  }

  lemma MergeStep(gdpr: seq<Row>, i: nat, events: seq<Row>, j: nat)
    requires i < |gdpr| && j < |events|
    ensures Merge(gdpr[i..], events[j..]) ==
      if !Less(gdpr[i].requestedAt, events[j].requestedAt)
      then [gdpr[i]] + Merge(gdpr[i + 1..], events[j..])
      else [events[j]] + Merge(gdpr[i..], events[j + 1..])
  {
    assert gdpr[i..][1..] == gdpr[i + 1..] && events[j..][1..] == events[j + 1..];
  }

  method MergeAuditTrail(gdpr: seq<Row>, events: seq<Row>) returns (out: seq<Row>)
    ensures out == Merge(gdpr, events)
  {
    out := [];
    var i, j := 0, 0;
    while i < |gdpr| && j < |events|
      invariant i <= |gdpr| && j <= |events|
      invariant Joined(out, Merge(gdpr[i..], events[j..]), Merge(gdpr, events))
    {
      MergeStep(gdpr, i, events, j);
      if !Less(gdpr[i].requestedAt, events[j].requestedAt) {
        MoveOver(out, gdpr[i], Merge(gdpr[i + 1..], events[j..]));
        out := out + [gdpr[i]];
        i := i + 1;
      } else {
        MoveOver(out, events[j], Merge(gdpr[i..], events[j + 1..]));
        out := out + [events[j]];
        j := j + 1;
      }
    }
    out := AppendRest(out, gdpr, i);
    out := AppendRest(out, events, j);
  }

  lemma HeadAndRest(rows: seq<Row>)
    requires rows != []
    ensures multiset(rows) == multiset{rows[0]} + multiset(rows[1..])
  {
    assert rows == [rows[0]] + rows[1..];
  }

  lemma Prefixed(x: Row, rest: seq<Row>)
    ensures multiset([x] + rest) == multiset{x} + multiset(rest)
  {
  }

  /** Whatever the lists, every row comes out, and as often as it went in. */
  lemma {:induction false} MergeKeepsRows(gdpr: seq<Row>, events: seq<Row>)
    ensures multiset(Merge(gdpr, events)) == multiset(gdpr) + multiset(events)
  {
    if gdpr != [] && events != [] {
      if !Less(gdpr[0].requestedAt, events[0].requestedAt) {
        MergeKeepsRows(gdpr[1..], events);
        HeadAndRest(gdpr);
        Prefixed(gdpr[0], Merge(gdpr[1..], events));
      } else {
        MergeKeepsRows(gdpr, events[1..]);
        HeadAndRest(events);
        Prefixed(events[0], Merge(gdpr, events[1..]));
      }
    }
  }

  lemma {:induction false} RestrictConcat(a: seq<Row>, b: seq<Row>, stamp: string)
    ensures Restrict(a + b, stamp) == Restrict(a, stamp) + Restrict(b, stamp)
  {
    if a == [] {
      assert a + b == b;
    } else {
      assert (a + b)[1..] == a[1..] + b;
      RestrictConcat(a[1..], b, stamp);
    }
  }

  lemma {:induction false} RestrictEmpty(rows: seq<Row>, stamp: string)
    requires forall r :: r in rows ==> r.requestedAt != stamp
    ensures Restrict(rows, stamp) == []
  {
    if rows != [] {
      RestrictEmpty(rows[1..], stamp);
    }
  }

  lemma {:induction false} RestrictMember(rows: seq<Row>, r: Row)
    requires r in rows
    ensures r in Restrict(rows, r.requestedAt)
  {
    if rows[0] != r {
      RestrictMember(rows[1..], r);
    }
  }

  lemma {:induction false} RestrictOnly(rows: seq<Row>, stamp: string, r: Row)
    requires r in Restrict(rows, stamp)
    ensures r in rows && r.requestedAt == stamp
  {
    if rows[0].requestedAt != stamp || rows[0] != r {
      RestrictOnly(rows[1..], stamp, r);
    }
  }

  /** A row taken because it is not less than the other list's head is not less than any row still to come. */
  lemma HeadDominates(head: string, rows: seq<Row>, r: Row)
    requires Descending(rows) && r in rows && !Less(head, rows[0].requestedAt)
    ensures !Less(head, r.requestedAt)
  {
    var k :| 0 <= k < |rows| && rows[k] == r;
    if k > 0 {
      LessTransitive(head, rows[0].requestedAt, r.requestedAt);
    }
  }

  lemma Prepend(r: Row, rows: seq<Row>)
    requires Descending(rows) && forall x :: x in rows ==> !Less(r.requestedAt, x.requestedAt)
    ensures Descending([r] + rows)
  {
  }

  lemma MergeMember(gdpr: seq<Row>, events: seq<Row>, x: Row)
    requires x in Merge(gdpr, events)
    ensures x in gdpr || x in events
  {
    MergeKeepsRows(gdpr, events);
    assert x in multiset(Merge(gdpr, events));
  }

  lemma {:induction false} MergeDescends(gdpr: seq<Row>, events: seq<Row>)
    requires Descending(gdpr) && Descending(events)
    ensures Descending(Merge(gdpr, events))
  {
    if gdpr != [] && events != [] {
      var g, e := gdpr[0].requestedAt, events[0].requestedAt;
      Trichotomy(g, e);
      Trichotomy(g, g);
      Trichotomy(e, e);
      if !Less(g, e) {
        MergeDescends(gdpr[1..], events);
        var rest := Merge(gdpr[1..], events);
        forall x | x in rest ensures !Less(g, x.requestedAt) {
          MergeMember(gdpr[1..], events, x);
          HeadDominates(g, if x in events then events else gdpr, x);
        }
        Prepend(gdpr[0], rest);
      } else {
        MergeDescends(gdpr, events[1..]);
        var rest := Merge(gdpr, events[1..]);
        forall x | x in rest ensures !Less(e, x.requestedAt) {
          MergeMember(gdpr, events[1..], x);
          HeadDominates(e, if x in gdpr then gdpr else events, x);
        }
        Prepend(events[0], rest);
      }
    }
  }

  /** Rows of one timestamp keep their order, GDPR requests before events. */
  lemma {:induction false} MergeIsStable(gdpr: seq<Row>, events: seq<Row>, stamp: string)
    requires Descending(gdpr) && Descending(events)
    ensures Restrict(Merge(gdpr, events), stamp) == Restrict(gdpr, stamp) + Restrict(events, stamp)
  {
    if gdpr != [] && events != [] {
      var g, e := gdpr[0], events[0];
      if !Less(g.requestedAt, e.requestedAt) {
        MergeIsStable(gdpr[1..], events, stamp);
      } else {
        MergeIsStable(gdpr, events[1..], stamp);
        if e.requestedAt == stamp {
          Trichotomy(g.requestedAt, e.requestedAt);
          forall x | x in gdpr ensures x.requestedAt != stamp {
            HeadDominates(g.requestedAt, gdpr, x) by { Trichotomy(g.requestedAt, g.requestedAt); }
          }
          RestrictEmpty(gdpr, stamp);
        }
      }
    }
  }

  lemma MergeIsStableSort(gdpr: seq<Row>, events: seq<Row>)
    requires Descending(gdpr) && Descending(events)
    ensures StableSort(Merge(gdpr, events), gdpr + events)
  {
    MergeDescends(gdpr, events);
    forall stamp ensures Restrict(Merge(gdpr, events), stamp) == Restrict(gdpr + events, stamp) {
      MergeIsStable(gdpr, events, stamp);
      RestrictConcat(gdpr, events, stamp);
    }
  }

  lemma SameTail(a: seq<Row>, b: seq<Row>, stamp: string)
    requires a != [] && b != [] && a[0] == b[0] && Restrict(a, stamp) == Restrict(b, stamp)
    ensures Restrict(a[1..], stamp) == Restrict(b[1..], stamp)
  {
    if a[0].requestedAt == stamp {
      assert Restrict(a, stamp)[1..] == Restrict(a[1..], stamp) && Restrict(b, stamp)[1..] == Restrict(b[1..], stamp);
    }
  }

  lemma SameHead(a: seq<Row>, b: seq<Row>, rows: seq<Row>)
    requires StableSort(a, rows) && StableSort(b, rows) && a != []
    ensures b != [] && a[0] == b[0]
  {
    RestrictMember(a, a[0]);
    assert a[0] in Restrict(b, a[0].requestedAt);
    RestrictOnly(b, a[0].requestedAt, a[0]);
    RestrictMember(b, b[0]);
    assert b[0] in Restrict(a, b[0].requestedAt);
    RestrictOnly(a, b[0].requestedAt, b[0]);
    Trichotomy(a[0].requestedAt, a[0].requestedAt);
    HeadDominates(a[0].requestedAt, a, b[0]);
    Trichotomy(b[0].requestedAt, b[0].requestedAt);
    HeadDominates(b[0].requestedAt, b, a[0]);
    Trichotomy(a[0].requestedAt, b[0].requestedAt);
    assert Restrict(a, a[0].requestedAt)[0] == a[0] && Restrict(b, a[0].requestedAt)[0] == b[0];
  }

  /** There is only one stable sort of a list. */
  lemma {:induction false} StableSortUnique(a: seq<Row>, b: seq<Row>, rows: seq<Row>)
    requires StableSort(a, rows) && StableSort(b, rows)
    ensures a == b
  {
    if a == [] {
      if b != [] {
        RestrictMember(b, b[0]);
      }
    } else {
      SameHead(a, b, rows);
      forall stamp ensures Restrict(a[1..], stamp) == Restrict(b[1..], stamp) {
        SameTail(a, b, stamp);
      }
      StableSortUnique(a[1..], b[1..], a[1..]);
    }
  }

  // ---------------------------------------------------------------------------------------
  // From stored rows to the timeline
  // ---------------------------------------------------------------------------------------

  const SECOND := 1_000_000_000

  /** A stored row; `at` is nanoseconds since the start of year 0. */
  datatype Entry = Entry(source: string, at: nat, detail: string)

  function At(e: Entry): int { e.at }

  function Format(at: nat): string { Text(CivilAt(at / SECOND)) }

  /** Four digits hold the year. */
  predicate Printable(at: nat) { CivilAt(at / SECOND).year <= 9999 }

  /** What the export writes for each stored row. */
  function Export(entries: seq<Entry>): (rows: seq<Row>)
    ensures |rows| == |entries|
    ensures forall i :: 0 <= i < |rows| ==> rows[i] == Row(entries[i].source, Format(entries[i].at), entries[i].detail)
  {
    if entries == [] then []
    else [Row(entries[0].source, Format(entries[0].at), entries[0].detail)] + Export(entries[1..])
  }

  /** Comparing the text compares the times, up to the second. */
  lemma FormatOrder(t: nat, u: nat)
    requires Printable(t) && Printable(u)
    ensures Less(Format(t), Format(u)) <==> t / SECOND < u / SECOND
  {
    CivilAtIsReading(t / SECOND);
    CivilAtIsReading(u / SECOND);
    TextOrderIsTimeOrder(CivilAt(t / SECOND), CivilAt(u / SECOND));
  }

  lemma ExportDescends(entries: seq<Entry>)
    requires Recency.NewestFirst(At, entries) && forall e :: e in entries ==> Printable(e.at)
    ensures Descending(Export(entries))
  {
    forall i, j | 0 <= i < j < |entries|
      ensures !Less(Export(entries)[i].requestedAt, Export(entries)[j].requestedAt)
    {
      assert At(entries[i]) >= At(entries[j]);
      FormatOrder(entries[i].at, entries[j].at);
    }
  }

  /** The exported timeline is newest first by the second, holding the rows of both lists, GDPR requests first. */
  lemma TimelineInOrder(gdpr: seq<Entry>, events: seq<Entry>, t: nat, u: nat, i: nat, j: nat)
    requires Recency.NewestFirst(At, gdpr) && Recency.NewestFirst(At, events)
    requires forall e :: e in gdpr + events ==> Printable(e.at)
    requires i < j < |Merge(Export(gdpr), Export(events))| && Printable(t) && Printable(u)
    requires var rows := Merge(Export(gdpr), Export(events));
      rows[i].requestedAt == Format(t) && rows[j].requestedAt == Format(u)
    ensures t / SECOND >= u / SECOND
    ensures StableSort(Merge(Export(gdpr), Export(events)), Export(gdpr) + Export(events))
  {
    ExportDescends(gdpr);
    ExportDescends(events);
    MergeIsStableSort(Export(gdpr), Export(events));
    FormatOrder(t, u);
  }
}
