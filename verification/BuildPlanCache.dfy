/**
 The cache of build plans detected in deployment tarballs: an entry per path, trusted while the file's
 modification time is the one it was stored under and the entry is young, evicted oldest first.
 */
module BuildPlanCache {

  import opened Options

  const SIZE := 1024
  /** Five minutes, in nanoseconds. */
  const TTL := 300_000_000_000
  const UNKNOWN := "unknown"

  datatype Plan = Plan(framework: string, version: string)

  datatype Entry = Entry(plan: Plan, mtime: int, cachedAt: int)

  /** `order` lists the paths, oldest insertion first. */
  datatype Cache = Cache(entries: map<string, Entry>, order: seq<string>)

  /**
   A call and what the outside gives it: the modification time, if the file is there, the framework and
   version a detection would find, and the clock at lookup and at storing.
   */
  datatype Call = Call(path: string, mtime: Option<int>, framework: string, version: string, now: int, later: int)

  /** What detection gives without a cache; the version is read only for a known framework. */
  function Detected(c: Call): Plan {
    Plan(c.framework, if c.framework != UNKNOWN then c.version else "")
  }

  predicate Fresh(e: Entry, mtime: int, now: int) { e.mtime == mtime && now - e.cachedAt < TTL }

  function Without(order: seq<string>, path: string): (r: seq<string>)
    ensures path !in order ==> r == order
  {
    if order == [] then []
    else if order[0] == path then order[1..]
    else [order[0]] + Without(order[1..], path)
  }

  function Dropped(c: Cache, path: string): Cache { Cache(c.entries - {path}, Without(c.order, path)) }

  /** Storing a new path, after making room for it. */
  function Put(c: Cache, path: string, e: Entry): Cache {
    if path in c.entries then c.(entries := c.entries[path := e])
    else if |c.order| >= SIZE then
      Cache((c.entries - {c.order[0]})[path := e], c.order[1..] + [path])
    else Cache(c.entries[path := e], c.order + [path])
  }

  predicate Looks(call: Call) { call.path != "" && call.mtime.Some? }

  predicate Hit(c: Cache, call: Call) {
    Looks(call) && call.path in c.entries && Fresh(c.entries[call.path], call.mtime.value, call.now)
  }

  function Next(c: Cache, call: Call): Cache {
    if !Looks(call) || Hit(c, call) then c
    else
      Put(if call.path in c.entries then Dropped(c, call.path) else c, call.path,
          Entry(Detected(call), call.mtime.value, call.later))
  }

  function Answer(c: Cache, call: Call): Plan {
    if !Looks(call) then Plan(UNKNOWN, "")
    else if Hit(c, call) then c.entries[call.path].plan
    else Detected(call)
  }

  // ---------------------------------------------------------------------------------------
  // The invariant
  // ---------------------------------------------------------------------------------------

  predicate Distinct(order: seq<string>) {
    forall i, j :: 0 <= i < j < |order| ==> order[i] != order[j]
  }

  predicate Covers(entries: map<string, Entry>, order: seq<string>) {
    forall i :: 0 <= i < |order| ==> order[i] in entries
  }

  predicate InAge(entries: map<string, Entry>, order: seq<string>)
    requires Covers(entries, order)
  {
    forall i, j :: 0 <= i < j < |order| ==> entries[order[i]].cachedAt <= entries[order[j]].cachedAt
  }

  /** The paths are exactly the keys, each once, no more than fit, in the order they were stored. */
  predicate Inv(c: Cache, clock: int) {
    && Distinct(c.order) && |c.order| <= SIZE
    && Covers(c.entries, c.order) && (forall p :: p in c.entries ==> p in c.order)
    && InAge(c.entries, c.order)
    && (forall p :: p in c.entries ==> c.entries[p].cachedAt <= clock)
  }

  lemma {:induction false} WithoutAt(order: seq<string>, path: string) returns (a: seq<string>, b: seq<string>)
    requires path in order
    ensures order == a + [path] + b && Without(order, path) == a + b
  {
    if order[0] == path {
      a, b := [], order[1..];
    } else {
      a, b := WithoutAt(order[1..], path);
      a := [order[0]] + a;
    }
  }

  lemma {:induction false} WithoutFirst(order: seq<string>, path: string, i: nat)
    requires i < |order| && order[i] == path && path !in order[..i]
    ensures Without(order, path) == order[..i] + order[i + 1..]
  {
    if i > 0 {
      assert order[0] == order[..i][0] && order[1..][..i - 1] == order[..i][1..];
      WithoutFirst(order[1..], path, i - 1);
    }
  }

  lemma DistinctWithout(a: seq<string>, path: string, b: seq<string>)
    requires Distinct(a + [path] + b)
    ensures Distinct(a + b) && path !in a + b
  {
    var whole, rest := a + [path] + b, a + b;
    forall i | 0 <= i < |rest| ensures rest[i] != path && rest[i] == whole[if i < |a| then i else i + 1] {
      assert whole[|a|] == path && rest[i] == whole[if i < |a| then i else i + 1];
    }
  }

  lemma InAgeWithout(entries: map<string, Entry>, a: seq<string>, path: string, b: seq<string>)
    requires Covers(entries, a + [path] + b) && InAge(entries, a + [path] + b) && path !in a + b
    ensures Covers(entries - {path}, a + b) && InAge(entries - {path}, a + b)
  {
    var whole, rest := a + [path] + b, a + b;
    forall i | 0 <= i < |rest|
      ensures rest[i] in entries && rest[i] != path && rest[i] == whole[if i < |a| then i else i + 1]
    {
      assert rest[i] == whole[if i < |a| then i else i + 1];
    }
  }

  lemma DroppedKeepsInv(c: Cache, clock: int, path: string)
    requires Inv(c, clock) && path in c.entries
    ensures Inv(Dropped(c, path), clock) && |Dropped(c, path).order| == |c.order| - 1
  {
    var a, b := WithoutAt(c.order, path);
    DistinctWithout(a, path, b);
    InAgeWithout(c.entries, a, path, b);
    forall p | p in c.entries && p != path ensures p in a + b {
      assert p in a + [path] + b;
    }
  }

  function Appended(c: Cache, path: string, e: Entry): Cache { Cache(c.entries[path := e], c.order + [path]) }

  lemma AppendedKeepsInv(c: Cache, clock: int, path: string, e: Entry)
    requires Inv(c, clock) && path !in c.entries && |c.order| < SIZE && clock <= e.cachedAt
    ensures Inv(Appended(c, path, e), e.cachedAt)
  {
    forall i | 0 <= i < |c.order| ensures c.order[i] != path && c.entries[c.order[i]].cachedAt <= clock {
    }
  }

  lemma PutKeepsInv(c: Cache, clock: int, path: string, e: Entry)
    requires Inv(c, clock) && path !in c.entries && clock <= e.cachedAt
    ensures Inv(Put(c, path, e), e.cachedAt)
  {
    if |c.order| >= SIZE {
      var room := Dropped(c, c.order[0]);
      DroppedKeepsInv(c, clock, c.order[0]);
      AppendedKeepsInv(room, clock, path, e);
      assert Put(c, path, e) == Appended(room, path, e);
    } else {
      AppendedKeepsInv(c, clock, path, e);
    }
  }

  lemma CallKeepsInv(c: Cache, clock: int, call: Call)
    requires Inv(c, clock) && clock <= call.now <= call.later
    ensures Inv(Next(c, call), call.later)
  {
    if Looks(call) && !Hit(c, call) {
      if call.path in c.entries {
        DroppedKeepsInv(c, clock, call.path);
      }
      var d := if call.path in c.entries then Dropped(c, call.path) else c;
      PutKeepsInv(d, clock, call.path, Entry(Detected(call), call.mtime.value, call.later));
    }
  }

  /** Room is made by giving up an entry that no other is older than. */
  lemma EvictsOldest(c: Cache, clock: int, path: string, e: Entry, gone: string)
    requires Inv(c, clock) && path !in c.entries && gone in c.entries && gone !in Put(c, path, e).entries
    ensures |c.order| == 1024 && gone == c.order[0]
    ensures forall p :: p in c.entries ==> c.entries[gone].cachedAt <= c.entries[p].cachedAt
  {
    forall p | p in c.entries ensures c.entries[gone].cachedAt <= c.entries[p].cachedAt {
      assert p in c.order;
      var i :| 0 <= i < |c.order| && c.order[i] == p;
    }
  }

  // ---------------------------------------------------------------------------------------
  // Runs of calls
  // ---------------------------------------------------------------------------------------

  function ClockAfter(calls: seq<Call>, start: int): int {
    if calls == [] then start else calls[|calls| - 1].later
  }

  /** The clock never runs back. */
  predicate Timely(calls: seq<Call>, start: int) {
    calls == [] ||
    var k := |calls| - 1;
    Timely(calls[..k], start) && ClockAfter(calls[..k], start) <= calls[k].now <= calls[k].later
  }

  lemma TimelyAppend(calls: seq<Call>, start: int, call: Call)
    requires Timely(calls, start) && ClockAfter(calls, start) <= call.now <= call.later
    ensures Timely(calls + [call], start) && ClockAfter(calls + [call], start) == call.later
  {
    assert (calls + [call])[..|calls|] == calls;
  }

  function CacheAfter(calls: seq<Call>): Cache {
    if calls == [] then Cache(map[], []) else Next(CacheAfter(calls[..|calls| - 1]), calls[|calls| - 1])
  }

  lemma CacheAppend(calls: seq<Call>, call: Call)
    ensures CacheAfter(calls + [call]) == Next(CacheAfter(calls), call)
  {
    assert (calls + [call])[..|calls|] == calls;
  }

  /** After any calls the cache is in order and within its bound. */
  lemma {:induction false} RunKeepsInv(calls: seq<Call>, start: int)
    requires Timely(calls, start)
    ensures Inv(CacheAfter(calls), ClockAfter(calls, start)) && |CacheAfter(calls).order| <= 1024
  {
    if calls != [] {
      var k := |calls| - 1;
      RunKeepsInv(calls[..k], start);
      CallKeepsInv(CacheAfter(calls[..k]), ClockAfter(calls[..k], start), calls[k]);
    }
  }

  predicate Uses(call: Call, path: string) { call.path == path && Looks(call) }

  /** The last call that stored `path`. */
  function StoredAt(calls: seq<Call>, path: string): (k: int)
    ensures -1 <= k < |calls| && (k >= 0 ==> Uses(calls[k], path))
  {
    if calls == [] then -1
    else
      var last := |calls| - 1;
      if Uses(calls[last], path) && !Hit(CacheAfter(calls[..last]), calls[last]) then last
      else StoredAt(calls[..last], path)
  }

  /** Every entry is what some call detected, stored under the time that call saw. */
  lemma {:induction false} EntryOrigin(calls: seq<Call>, path: string) returns (k: nat)
    requires path in CacheAfter(calls).entries
    ensures k < |calls| && calls[k].path == path && Looks(calls[k]) && k == StoredAt(calls, path)
    ensures CacheAfter(calls).entries[path] == Entry(Detected(calls[k]), calls[k].mtime.value, calls[k].later)
  {
    var last := |calls| - 1;
    var before, call := CacheAfter(calls[..last]), calls[last];
    if call.path == path && Looks(call) && !Hit(before, call) {
      k := last;
    } else {
      assert path in before.entries && CacheAfter(calls).entries[path] == before.entries[path];
      k := EntryOrigin(calls[..last], path);
    }
  }

  /** What a call would answer without the cache. */
  function Direct(call: Call): Plan { if Looks(call) then Detected(call) else Plan(UNKNOWN, "") }

  /**
   After any calls, an answer is either detected now or was detected by a call that saw the same path
   with the same modification time and stored it less than the lifetime ago.
   */
  lemma AnswerOrigin(calls: seq<Call>, call: Call) returns (k: nat)
    requires Answer(CacheAfter(calls), call) != Direct(call)
    ensures k < |calls| && Looks(call) && calls[k].path == call.path && calls[k].mtime == call.mtime
    ensures call.now - calls[k].later < TTL
    ensures Answer(CacheAfter(calls), call) == Detected(calls[k])
  {
    k := EntryOrigin(calls, call.path);
  }

  /** While path and modification time determine the contents, the cache cannot be told from detection. */
  lemma Transparent(calls: seq<Call>, call: Call)
    requires forall k :: 0 <= k < |calls| && calls[k].path == call.path && calls[k].mtime == call.mtime ==>
      Detected(calls[k]) == Detected(call)
    ensures Answer(CacheAfter(calls), call) == Direct(call)
  {
    if Answer(CacheAfter(calls), call) != Direct(call) {
      var k := AnswerOrigin(calls, call);
    }
  }

  /**
   Exactly when a call is answered with what detection would find: the entry is not there or not
   trusted, or detection finds now what it found when the entry was stored.
   */
  lemma TransparentIff(calls: seq<Call>, call: Call)
    requires Looks(call)
    ensures call.path in CacheAfter(calls).entries ==> 0 <= StoredAt(calls, call.path)
    ensures Answer(CacheAfter(calls), call) == Direct(call) <==>
      call.path in CacheAfter(calls).entries ==>
        var stored := calls[StoredAt(calls, call.path)];
        stored.mtime == call.mtime && call.now - stored.later < TTL ==> Detected(stored) == Detected(call)
  {
    if call.path in CacheAfter(calls).entries {
      var k := EntryOrigin(calls, call.path);
    }
  }

  /** A rewrite that leaves the modification time alone goes unseen for the whole lifetime, and no longer. */
  lemma RewriteUnseen(calls: seq<Call>, first: Call, second: Call)
    requires Looks(first) && !Hit(CacheAfter(calls), first)
    requires second.path == first.path && second.mtime == first.mtime
    ensures Answer(CacheAfter(calls + [first]), second) ==
      if second.now - first.later < TTL then Detected(first) else Detected(second)
  {
    assert (calls + [first])[..|calls|] == calls;
  }

  // ---------------------------------------------------------------------------------------
  // Oldest stored is not least recently used
  // ---------------------------------------------------------------------------------------

  /** The last call that was answered from the entry of `path` or stored it; -1 if there is none. */
  function LastUse(calls: seq<Call>, path: string): (k: int)
    ensures -1 <= k < |calls| && (k >= 0 ==> Uses(calls[k], path))
    ensures forall j :: k < j < |calls| ==> !Uses(calls[j], path)
  {
    if calls == [] then -1
    else if Uses(calls[|calls| - 1], path) then |calls| - 1
    else LastUse(calls[..|calls| - 1], path)
  }

  /** No other entry was used as long ago. */
  predicate LeastRecentlyUsed(calls: seq<Call>, path: string) {
    forall q :: q in CacheAfter(calls).entries && q != path ==> LastUse(calls, path) < LastUse(calls, q)
  }

  /** Every other entry was used after call `k`. */
  predicate AllUsedAfter(calls: seq<Call>, k: nat, path: string) {
    forall q :: q in CacheAfter(calls).entries && q != path ==> k < LastUse(calls, q)
  }

  predicate Rising(calls: seq<Call>, order: seq<string>) {
    forall i, j :: 0 <= i < j < |order| ==> StoredAt(calls, order[i]) <= StoredAt(calls, order[j])
  }

  lemma RisingWithout(calls: seq<Call>, a: seq<string>, path: string, b: seq<string>)
    requires Rising(calls, a + [path] + b)
    ensures Rising(calls, a + b)
  {
    var whole, rest := a + [path] + b, a + b;
    forall i | 0 <= i < |rest| ensures rest[i] == whole[if i < |a| then i else i + 1] {
    }
  }

  lemma RisingAppended(calls: seq<Call>, call: Call, order: seq<string>)
    requires Rising(calls, order) && call.path !in order && Looks(call) && !Hit(CacheAfter(calls), call)
    ensures Rising(calls + [call], order + [call.path])
  {
    assert (calls + [call])[..|calls|] == calls;
    forall i | 0 <= i < |order| ensures StoredAt(calls + [call], order[i]) == StoredAt(calls, order[i]) {
      assert order[i] != call.path;
    }
  }

  lemma RisingDropped(calls: seq<Call>, c: Cache, path: string)
    requires Rising(calls, c.order)
    ensures Rising(calls, Dropped(c, path).order)
  {
    if path in c.order {
      var a, b := WithoutAt(c.order, path);
      RisingWithout(calls, a, path, b);
    }
  }

  lemma RisingPut(calls: seq<Call>, call: Call, c: Cache, clock: int, e: Entry)
    requires Inv(c, clock) && Rising(calls, c.order) && call.path !in c.entries
    requires Looks(call) && !Hit(CacheAfter(calls), call)
    ensures Rising(calls + [call], Put(c, call.path, e).order)
  {
    RisingAppended(calls, call, if |c.order| >= SIZE then c.order[1..] else c.order);
  }

  /** The order of the cache is the order of storing. */
  lemma {:induction false} OrderIsByStoring(calls: seq<Call>, start: int)
    requires Timely(calls, start)
    ensures Rising(calls, CacheAfter(calls).order)
  {
    if calls != [] {
      var k := |calls| - 1;
      var before, call, clock := CacheAfter(calls[..k]), calls[k], ClockAfter(calls[..k], start);
      OrderIsByStoring(calls[..k], start);
      RunKeepsInv(calls[..k], start);
      assert calls == calls[..k] + [call];
      if Looks(call) && !Hit(before, call) {
        var c := if call.path in before.entries then Dropped(before, call.path) else before;
        if call.path in before.entries {
          DroppedKeepsInv(before, clock, call.path);
          RisingDropped(calls[..k], before, call.path);
        }
        RisingPut(calls[..k], call, c, clock, Entry(Detected(call), call.mtime.value, call.later));
      }
    }
  }

  lemma {:induction false} EntryWasStored(calls: seq<Call>, path: string)
    requires path in CacheAfter(calls).entries
    ensures 0 <= StoredAt(calls, path) <= LastUse(calls, path)
  {
    var last := |calls| - 1;
    var before, call := CacheAfter(calls[..last]), calls[last];
    if !(Uses(call, path) && !Hit(before, call)) {
      assert path in before.entries;
      EntryWasStored(calls[..last], path);
    }
  }

  /**
   The entry next in line for eviction is the least recently used one exactly when every hit on it was
   followed by a use of every other entry; so always when it has had no hit since it was stored.
   */
  lemma VictimLeastRecentlyUsedIff(calls: seq<Call>, start: int, victim: string)
    requires Timely(calls, start) && CacheAfter(calls).order != [] && victim == CacheAfter(calls).order[0]
    ensures LeastRecentlyUsed(calls, victim) <==>
      forall k :: StoredAt(calls, victim) < k < |calls| && Uses(calls[k], victim) ==> AllUsedAfter(calls, k, victim)
  {
    var c := CacheAfter(calls);
    RunKeepsInv(calls, start);
    OrderIsByStoring(calls, start);
    EntryWasStored(calls, victim);
    var last, stored := LastUse(calls, victim), StoredAt(calls, victim);
    forall q | q in c.entries && q != victim ensures stored < LastUse(calls, q) {
      EntryWasStored(calls, q);
      var i :| 0 <= i < |c.order| && c.order[i] == q;
      assert StoredAt(calls, c.order[0]) <= StoredAt(calls, c.order[i]);
    }
    if last > stored {
      assert Uses(calls[last], victim);
      assert AllUsedAfter(calls, last, victim) <==> LeastRecentlyUsed(calls, victim);
    }
  }

  // A run in which the entry used last of all is the one evicted.

  function Name(i: nat): string { seq(i + 1, _ => 'a') }

  function Ask(i: nat): Call { Call(Name(i), Some(0), "go", "1", 0, 0) }

  /** The first `n` paths asked for once each. */
  function Asked(n: nat): seq<Call> { seq(n, i requires 0 <= i < n => Ask(i)) }

  function Names(n: nat): seq<string> { seq(n, i requires 0 <= i < n => Name(i)) }

  lemma NamesDiffer(i: nat, j: nat)
    requires i != j
    ensures Name(i) != Name(j)
  {
    assert |Name(i)| != |Name(j)|;
  }

  lemma NotYetNamed(n: nat, i: nat)
    requires i >= n
    ensures Name(i) !in Names(n)
  {
    forall j | 0 <= j < n ensures Names(n)[j] != Name(i) {
      NamesDiffer(i, j);
    }
  }

  lemma AskedNext(n: nat)
    ensures Asked(n + 1) == Asked(n) + [Ask(n)] && Names(n + 1) == Names(n) + [Name(n)]
  {
  }

  lemma {:induction false} AskedTimely(n: nat)
    ensures Timely(Asked(n), 0) && ClockAfter(Asked(n), 0) == 0
  {
    if n > 0 {
      AskedTimely(n - 1);
      AskedNext(n - 1);
      TimelyAppend(Asked(n - 1), 0, Ask(n - 1));
    }
  }

  lemma StoresNew(c: Cache, call: Call)
    requires Looks(call) && call.path !in c.entries && |c.order| < SIZE
    ensures Next(c, call).order == c.order + [call.path]
  {
  }

  lemma {:induction false} AskedFills(n: nat)
    requires n <= SIZE
    ensures CacheAfter(Asked(n)).order == Names(n)
  {
    if n > 0 {
      AskedFills(n - 1);
      AskedTimely(n - 1);
      RunKeepsInv(Asked(n - 1), 0);
      NotYetNamed(n - 1, n - 1);
      AskedNext(n - 1);
      CacheAppend(Asked(n - 1), Ask(n - 1));
      StoresNew(CacheAfter(Asked(n - 1)), Ask(n - 1));
    }
  }

  lemma {:induction false} FirstEntry(n: nat)
    requires 1 <= n <= SIZE
    ensures Name(0) in CacheAfter(Asked(n)).entries
    ensures CacheAfter(Asked(n)).entries[Name(0)] == Entry(Plan("go", "1"), 0, 0)
  {
    AskedFills(n);
    AskedTimely(n);
    RunKeepsInv(Asked(n), 0);
    assert Names(n)[0] == Name(0) && Name(0) in Names(n);
    var k := EntryOrigin(Asked(n), Name(0));
  }

  /** The first path asked for again: the entry used last of all is the first in line. */
  lemma EvictedThoughJustUsed() returns (calls: seq<Call>, other: Call)
    ensures Timely(calls + [other], 0)
    ensures calls != [] && Hit(CacheAfter(calls[..|calls| - 1]), calls[|calls| - 1])
    ensures var c, used := CacheAfter(calls), calls[|calls| - 1].path;
      && |c.order| == SIZE && used == c.order[0]
      && used in c.entries && used !in CacheAfter(calls + [other]).entries
      && forall q :: q in c.entries && q != used ==> LastUse(calls, q) < LastUse(calls, used)
  {
    var filled := Asked(SIZE);
    calls, other := filled + [Ask(0)], Ask(SIZE);
    AskedFills(SIZE);
    AskedTimely(SIZE);
    TimelyAppend(filled, 0, Ask(0));
    TimelyAppend(calls, 0, other);
    FirstEntry(SIZE);
    assert calls[..SIZE] == filled;
    CacheAppend(filled, Ask(0));
    assert CacheAfter(calls) == CacheAfter(filled);
    CacheAppend(calls, other);
    RunKeepsInv(filled, 0);
    NotYetNamed(SIZE, SIZE);
    assert (calls + [other])[..SIZE + 1] == calls;
    assert other.path !in CacheAfter(calls).entries;
    assert Names(SIZE)[0] == Name(0);
    assert LastUse(calls, Name(0)) == SIZE;
    NamesDiffer(0, SIZE);
  }

  // ---------------------------------------------------------------------------------------
  // The cache object
  // ---------------------------------------------------------------------------------------

  class PlanCache {
    var entries: map<string, Entry>
    var order: seq<string>

    function Contents(): Cache
      reads this
    {
      Cache(entries, order)
    }

    constructor ()
      ensures Contents() == Cache(map[], [])
    {
      entries, order := map[], [];
    }

    method RemoveFromOrder(path: string)
      modifies this`order
      ensures order == Without(old(order), path)
    {
      for i := 0 to |order|
        invariant order == old(order) && path !in order[..i]
      {
        if order[i] == path {
          WithoutFirst(order, path, i);
          order := order[..i] + order[i + 1..];
          return;
        }
      }
    }

    method PutLocked(path: string, e: Entry)
      modifies this
      ensures Contents() == Put(old(Contents()), path, e)
    {
      if path in entries {
        entries := entries[path := e];
        return;
      }
      if |order| >= SIZE {
        var oldest := order[0];
        order := order[1..];
        entries := entries - {oldest};
      }
      entries := entries[path := e];
      order := order + [path];
    }

    method GetCachedBuildPlan(call: Call) returns (plan: Plan)
      modifies this
      ensures Contents() == Next(old(Contents()), call) && plan == Answer(old(Contents()), call)
      ensures call.path == "" || call.mtime.None? ==> plan == Plan("unknown", "") && Contents() == old(Contents())
      ensures call.path != "" && call.mtime.Some? ==>
        if call.path in old(entries) && old(entries)[call.path].mtime == call.mtime.value
          && call.now - old(entries)[call.path].cachedAt < 300_000_000_000
        then plan == old(entries)[call.path].plan && Contents() == old(Contents())
        else
          && plan == Plan(call.framework, if call.framework == "unknown" then "" else call.version)
          && call.path in entries && entries[call.path] == Entry(plan, call.mtime.value, call.later)
    {
      if call.path == "" || call.mtime.None? {
        return Plan(UNKNOWN, "");
      }
      if call.path in entries {
        var e := entries[call.path];
        if e.mtime == call.mtime.value && call.now - e.cachedAt < TTL {
          return e.plan;
        }
        entries := entries - {call.path};
        RemoveFromOrder(call.path);
      }
      var version := "";
      if call.framework != UNKNOWN {
        version := call.version;
      }
      PutLocked(call.path, Entry(Plan(call.framework, version), call.mtime.value, call.later));
      plan := Plan(call.framework, version);
    }
  }
}
