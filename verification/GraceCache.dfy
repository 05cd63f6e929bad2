/**
 The cache of an account's key grace window. Each access to the cache takes its lock, but a lookup is
 two accesses, a store read and a third access, and an update is a store write and then an
 invalidation; requests interleave between them. Accounts do not affect each other, so the transition
 system follows one account.
 */
module GraceCache {

  import opened Options

  /** Sixty seconds, in nanoseconds. */
  const TTL := 60_000_000_000

  /** The override in days, or none. */
  type Days = Option<int>

  // ---------------------------------------------------------------------------------------
  // Lock by lock
  // ---------------------------------------------------------------------------------------

  /** A value the store has held, and since when. */
  datatype Held = Held(value: Days, since: int)

  /** A value read from the store: which of the held values it was, and when it was read. */
  datatype Reading = Reading(value: Days, version: nat, readAt: int)

  datatype Entry = Entry(reading: Reading, setAt: int)

  /**
   How far a request has come. `Missed`: the first access, at time `gotAt` and after `sets` stores into
   the cache, found no value, either for want of an entry or because the entry `seen` says there is no
   override. `Consulting`: the second access found no entry.
   */
  datatype Slot =
    | Idle
    | Missed(seen: Option<Entry>, gotAt: int, sets: nat)
    | Consulting
    | Holding(reading: Reading)
    | Written

  /**
   Why a lookup reports no override: it read none from the store; its first access found an entry that
   says so; or that access found nothing and the second found an entry, stored in between.
   */
  datatype Basis = Fresh(reading: Reading) | Listed(entry: Entry, gotAt: int) | Raced(setsBefore: nat, setsAfter: nat)

  /** A lookup that returned a reading at time `at`, which some lookup had put in the cache at `setAt`. */
  datatype Answer = Known(reading: Reading, setAt: int, at: int) | NoOverride(basis: Basis, at: int)

  /** `held` lists every value of the store, the current one last; `sets` counts the stores into the cache. */
  datatype State = State(
    held: seq<Held>, entry: Option<Entry>, sets: nat, now: int, slots: seq<Slot>, answers: seq<Answer>)

  datatype Step =
    | Get(slot: nat)
    | CheckNegative(slot: nat)
    | ReadStore(slot: nat)
    | Set(slot: nat)
    | WriteStore(slot: nat, days: Days)
    | Invalidate(slot: nat)
    | Wait(duration: nat)

  predicate Enabled(s: State, step: Step) {
    step.Wait? || (step.slot < |s.slots| &&
      match step
      case Get(i) => s.slots[i].Idle?
      case CheckNegative(i) => s.slots[i].Missed?
      case ReadStore(i) => s.slots[i].Consulting?
      case Set(i) => s.slots[i].Holding?
      case WriteStore(i, days) => s.slots[i].Idle? && (days.Some? ==> days.value >= 0)
      case Invalidate(i) => s.slots[i].Written?)
  }

  function Current(s: State): Days
    requires s.held != []
  {
    s.held[|s.held| - 1].value
  }

  function Moved(s: State, i: nat, slot: Slot): State
    requires i < |s.slots|
  {
    s.(slots := s.slots[i := slot])
  }

  function Apply(s: State, step: Step): (t: State)
    requires s.held != []
    ensures s.held <= t.held && |t.slots| == |s.slots|
  {
    if !Enabled(s, step) then s else
    match step
    case Get(i) =>
      if s.entry.None? || s.now > s.entry.value.setAt + TTL
      then Moved(s, i, Missed(None, s.now, s.sets)).(entry := None)
      else if s.entry.value.reading.value.None? then Moved(s, i, Missed(s.entry, s.now, s.sets))
      else s.(answers := s.answers + [Known(s.entry.value.reading, s.entry.value.setAt, s.now)])
    case CheckNegative(i) =>
      var m := s.slots[i];
      if s.entry.None? then Moved(s, i, Consulting)
      else
        var basis := if m.seen.Some? then Listed(m.seen.value, m.gotAt) else Raced(m.sets, s.sets);
        Moved(s, i, Idle).(answers := s.answers + [NoOverride(basis, s.now)])
    case ReadStore(i) => Moved(s, i, Holding(Reading(Current(s), |s.held| - 1, s.now)))
    case Set(i) =>
      var r := s.slots[i].reading;
      Moved(s, i, Idle).(
        entry := Some(Entry(r, s.now)), sets := s.sets + 1,
        answers := s.answers + [if r.value.Some? then Known(r, s.now, s.now) else NoOverride(Fresh(r), s.now)])
    case WriteStore(i, days) => Moved(s, i, Written).(held := s.held + [Held(days, s.now)])
    case Invalidate(i) => Moved(s, i, Idle).(entry := None)
    case Wait(d) => s.(now := s.now + d)
  }

  function Start(n: nat, days: Days, now: int): State { State([Held(days, now)], None, 0, now, seq(n, _ => Idle), []) }

  function After(s: State, steps: seq<Step>): (t: State)
    requires s.held != []
    ensures s.held <= t.held && |t.slots| == |s.slots|
  {
    if steps == [] then s else Apply(After(s, steps[..|steps| - 1]), steps[|steps| - 1])
  }

  // ---------------------------------------------------------------------------------------
  // How old an answer can be
  // ---------------------------------------------------------------------------------------

  /** The reading is the value the store held at the time it was read. */
  predicate Genuine(held: seq<Held>, r: Reading) {
    && r.version < |held| && held[r.version].value == r.value
    && held[r.version].since <= r.readAt && (r.version + 1 < |held| ==> r.readAt <= held[r.version + 1].since)
  }

  predicate EntryGenuine(held: seq<Held>, e: Entry, now: int) {
    Genuine(held, e.reading) && e.reading.readAt <= e.setAt <= now
  }

  /** An entry without an override that the first access of a lookup found, and found alive. */
  predicate SeenGenuine(held: seq<Held>, e: Entry, gotAt: int) {
    EntryGenuine(held, e, gotAt) && e.reading.value.None? && gotAt <= e.setAt + TTL
  }

  /**
   A value was the store's when it was read and is in the cache no longer than the lifetime; so is the
   word that there is no override, unless an entry was stored between the two accesses of the lookup.
   */
  predicate AnswerGenuine(held: seq<Held>, a: Answer) {
    match a
    case Known(r, setAt, at) => Genuine(held, r) && r.readAt <= setAt <= at <= setAt + TTL
    case NoOverride(Fresh(r), at) => Genuine(held, r) && r.value.None? && r.readAt <= at
    case NoOverride(Listed(e, gotAt), at) => SeenGenuine(held, e, gotAt) && gotAt <= at
    case NoOverride(Raced(before, after), at) => before < after
  }

  predicate SlotInv(s: State, slot: Slot) {
    match slot
    case Holding(r) => Genuine(s.held, r) && r.readAt <= s.now
    case Missed(seen, gotAt, sets) =>
      && gotAt <= s.now && sets <= s.sets
      && (if seen.Some? then SeenGenuine(s.held, seen.value, gotAt) else s.entry.Some? ==> sets < s.sets)
    case _ => true
  }

  predicate Inv(s: State) {
    && s.held != [] && s.held[|s.held| - 1].since <= s.now
    && (s.entry.Some? ==> EntryGenuine(s.held, s.entry.value, s.now))
    && (forall i :: 0 <= i < |s.slots| ==> SlotInv(s, s.slots[i]))
    && (forall k :: 0 <= k < |s.answers| ==> AnswerGenuine(s.held, s.answers[k]) && s.answers[k].at <= s.now)
  }

  lemma WriteKeepsGenuine(held: seq<Held>, h: Held, r: Reading)
    requires Genuine(held, r) && r.readAt <= h.since
    ensures Genuine(held + [h], r)
  {
  }

  lemma WriteKeepsInv(s: State, i: nat, days: Days)
    requires Inv(s) && i < |s.slots| && s.slots[i].Idle?
    ensures Inv(Moved(s, i, Written).(held := s.held + [Held(days, s.now)]))
  {
    var h := Held(days, s.now);
    var t := Moved(s, i, Written).(held := s.held + [h]);
    if s.entry.Some? {
      WriteKeepsGenuine(s.held, h, s.entry.value.reading);
    }
    forall j | 0 <= j < |t.slots| ensures SlotInv(t, t.slots[j]) {
      assert SlotInv(s, s.slots[j]);
      match t.slots[j]
      case Holding(r) => WriteKeepsGenuine(s.held, h, r);
      case Missed(Some(e), _, _) => WriteKeepsGenuine(s.held, h, e.reading);
      case _ =>
    }
    forall k | 0 <= k < |t.answers| ensures AnswerGenuine(t.held, t.answers[k]) {
      assert AnswerGenuine(s.held, s.answers[k]);
      match t.answers[k]
      case Known(r, _, _) => WriteKeepsGenuine(s.held, h, r);
      case NoOverride(Fresh(r), _) => WriteKeepsGenuine(s.held, h, r);
      case NoOverride(Listed(e, _), _) => WriteKeepsGenuine(s.held, h, e.reading);
      case NoOverride(Raced(_, _), _) =>
    }
  }

  lemma SlotStep(s: State, step: Step, j: nat)
    requires Inv(s) && Enabled(s, step) && !step.WriteStore? && j < |s.slots|
    ensures SlotInv(Apply(s, step), Apply(s, step).slots[j])
  {
    assert SlotInv(s, s.slots[j]);
  }

  lemma AnswerStep(s: State, step: Step, k: nat)
    requires Inv(s) && Enabled(s, step) && !step.WriteStore? && k < |Apply(s, step).answers|
    ensures AnswerGenuine(s.held, Apply(s, step).answers[k]) && Apply(s, step).answers[k].at <= Apply(s, step).now
  {
    if k < |s.answers| {
      assert AnswerGenuine(s.held, s.answers[k]) && s.answers[k].at <= s.now;
    } else {
      assert SlotInv(s, s.slots[step.slot]);
    }
  }

  lemma InvStep(s: State, step: Step)
    requires Inv(s)
    ensures Inv(Apply(s, step))
  {
    if Enabled(s, step) {
      if step.WriteStore? {
        WriteKeepsInv(s, step.slot, step.days);
      } else {
        var t := Apply(s, step);
        forall j | 0 <= j < |t.slots| ensures SlotInv(t, t.slots[j]) {
          SlotStep(s, step, j);
        }
        forall k | 0 <= k < |t.answers| ensures AnswerGenuine(t.held, t.answers[k]) && t.answers[k].at <= t.now {
          AnswerStep(s, step, k);
        }
      }
    }
  }

  /**
   In every run, a lookup that returns a value returns one the store held when some lookup read it, and
   that lookup put it in the cache no more than the lifetime before. A lookup that reports no override
   has read or found exactly that, or another lookup stored an entry between its two accesses.
   */
  lemma {:induction false} AnswersGenuine(n: nat, days: Days, now: int, steps: seq<Step>)
    ensures Inv(After(Start(n, days, now), steps))
  {
    if steps != [] {
      AnswersGenuine(n, days, now, steps[..|steps| - 1]);
      InvStep(After(Start(n, days, now), steps[..|steps| - 1]), steps[|steps| - 1]);
    }
  }

  // ---------------------------------------------------------------------------------------
  // Whether an update is seen at once
  // ---------------------------------------------------------------------------------------

  /** Neither the cache nor a request about to fill it has a value that has been overwritten. */
  predicate Settled(s: State)
    requires s.held != []
  {
    && (s.entry.Some? ==> s.entry.value.reading.value == Current(s))
    && forall i :: 0 <= i < |s.slots| && s.slots[i].Holding? ==> s.slots[i].reading.value == Current(s)
  }

  predicate NoWrite(steps: seq<Step>) { forall k :: 0 <= k < |steps| ==> !steps[k].WriteStore? }

  /** Every value returned after `s` is the store's. */
  predicate SeesCurrent(s: State, t: State)
    requires s.held != []
  {
    forall k :: |s.answers| <= k < |t.answers| && t.answers[k].Known? ==> t.answers[k].reading.value == Current(s)
  }

  function Value(a: Answer): Days { if a.Known? then a.reading.value else None }

  /** A lookup that nothing comes between; steps it does not come to are no steps. */
  function LookedUp(s: State, j: nat): State
    requires s.held != []
  {
    Apply(Apply(Apply(Apply(s, Get(j)), CheckNegative(j)), ReadStore(j)), Set(j))
  }

  /** It is answered, and with what the store holds. */
  predicate LooksUpCurrent(s: State, j: nat)
    requires s.held != []
  {
    var was, now := s.answers, LookedUp(s, j).answers;
    |now| == |was| + 1 && now[..|was|] == was && Value(now[|was|]) == Current(s)
  }

  /** An uninterrupted lookup answers the cached value, if there is a live entry, and the store's otherwise. */
  lemma LookupAnswers(s: State, j: nat)
    requires s.held != [] && j < |s.slots| && s.slots[j].Idle?
    ensures LooksUpCurrent(s, j) <==>
      s.entry.None? || s.now > s.entry.value.setAt + TTL || s.entry.value.reading.value == Current(s)
  {
    var a := Apply(s, Get(j));
    if s.entry.None? || s.now > s.entry.value.setAt + TTL {
      var b := Apply(a, CheckNegative(j));
      assert b.slots[j] == Consulting && b.entry.None? && b.answers == s.answers;
      var c := Apply(b, ReadStore(j));
      assert c.slots[j].Holding? && c.slots[j].reading.value == Current(s);
    } else if s.entry.value.reading.value.None? {
      var b := Apply(a, CheckNegative(j));
      assert b.slots[j] == Idle && Apply(b, ReadStore(j)) == b && Apply(b, Set(j)) == b;
    } else {
      assert a.slots[j] == Idle && Apply(a, CheckNegative(j)) == a;
      assert Apply(a, ReadStore(j)) == a && Apply(a, Set(j)) == a;
    }
  }

  lemma SettledStep(s: State, step: Step)
    requires s.held != [] && Settled(s) && !step.WriteStore?
    ensures var t := Apply(s, step); Settled(t) && t.held == s.held && s.answers <= t.answers && SeesCurrent(s, t)
  {
  }

  /**
   From a settled state on, until the next write, the cache holds nothing but the store's value, and
   every value returned is that one, also "no override" to a lookup that is not interrupted.
   */
  lemma {:induction false} SettledRun(s: State, steps: seq<Step>)
    requires s.held != [] && Settled(s) && NoWrite(steps)
    ensures var t := After(s, steps); Settled(t) && t.held == s.held && s.answers <= t.answers && SeesCurrent(s, t)
    ensures var t := After(s, steps); forall j :: 0 <= j < |t.slots| && t.slots[j].Idle? ==> LooksUpCurrent(t, j)
  {
    if steps != [] {
      var k := |steps| - 1;
      SettledRun(s, steps[..k]);
      SettledStep(After(s, steps[..k]), steps[k]);
    }
    var t := After(s, steps);
    forall j | 0 <= j < |t.slots| && t.slots[j].Idle? ensures LooksUpCurrent(t, j) {
      LookupAnswers(t, j);
    }
  }

  lemma Extend(s: State, steps: seq<Step>, step: Step)
    requires s.held != []
    ensures After(s, steps + [step]) == Apply(After(s, steps), step)
  {
    assert (steps + [step])[..|steps|] == steps;
  }

  /** A request holding an overwritten value, or an overwritten absence of one, stores it for the next to find. */
  lemma UnsettledRun(s: State, i: nat)
    requires s.held != [] && i < |s.slots| && s.slots[i].Holding? && s.slots[i].reading.value != Current(s)
    ensures var t := After(s, [Set(i)]);
      && t.entry.Some? && t.entry.value.reading.value != Current(s)
      && t.held == s.held && |t.slots| == |s.slots| && t.slots[i].Idle? && !LooksUpCurrent(t, i)
  {
    Extend(s, [], Set(i));
    assert [] + [Set(i)] == [Set(i)];
    LookupAnswers(After(s, [Set(i)]), i);
  }

  /** Whatever happens before the next write, what is cached is the store's value. */
  ghost predicate CachesCurrent(s: State)
    requires s.held != []
  {
    forall steps :: NoWrite(steps) ==>
      var t := After(s, steps);
      t.entry.Some? ==> t.entry.value.reading.value == Current(s)
  }

  /** Whatever happens before the next write, a lookup then made and not interrupted is told the store's value. */
  ghost predicate ServesCurrent(s: State)
    requires s.held != []
  {
    forall steps, j :: NoWrite(steps) && 0 <= j < |s.slots| && After(s, steps).slots[j].Idle? ==>
      LooksUpCurrent(After(s, steps), j)
  }

  predicate HoldsCurrent(s: State)
    requires s.held != []
  {
    forall j :: 0 <= j < |s.slots| && s.slots[j].Holding? ==> s.slots[j].reading.value == Current(s)
  }

  /**
   Once an update has invalidated the cache, its value is the only one cached, and the one every
   uninterrupted lookup is told, until the next update, exactly when no request then holds a reading
   from before the update that differs from it, a value or "no override".
   */
  lemma UpdateSeenIff(s: State, i: nat)
    requires s.held != [] && i < |s.slots| && s.slots[i].Written?
    ensures CachesCurrent(Apply(s, Invalidate(i))) <==> HoldsCurrent(s)
    ensures ServesCurrent(Apply(s, Invalidate(i))) <==> HoldsCurrent(s)
  {
    var t := Apply(s, Invalidate(i));
    assert HoldsCurrent(t) <==> HoldsCurrent(s) by {
      assert forall j :: 0 <= j < |s.slots| && j != i ==> t.slots[j] == s.slots[j];
    }
    if HoldsCurrent(t) {
      forall steps | NoWrite(steps)
        ensures Settled(After(t, steps)) && After(t, steps).held == t.held
        ensures forall j :: 0 <= j < |t.slots| && After(t, steps).slots[j].Idle? ==> LooksUpCurrent(After(t, steps), j)
      {
        SettledRun(t, steps);
      }
    } else {
      var j :| 0 <= j < |t.slots| && t.slots[j].Holding? && t.slots[j].reading.value != Current(t);
      UnsettledRun(t, j);
      assert NoWrite([Set(j)]);
    }
  }

  /** A lookup in slot 1 reads the store. */
  lemma ReadsStore(s: State)
    requires |s.slots| >= 2 && s.held != [] && s.entry.None? && s.slots[1].Idle?
    ensures var a := Apply(s, Get(1));
      var b := Apply(a, CheckNegative(1));
      Apply(b, ReadStore(1)) == Moved(s, 1, Holding(Reading(Current(s), |s.held| - 1, s.now)))
  {
    var a := Apply(s, Get(1));
    assert a == Moved(s, 1, Missed(None, s.now, s.sets));
    var b := Apply(a, CheckNegative(1));
    assert b == Moved(s, 1, Consulting);
  }

  lemma ThenWritten(s: State, after: Days)
    requires |s.slots| >= 2 && s.held != [] && s.slots[0].Idle? && (after.Some? ==> after.value >= 0)
    requires s.slots[1].Holding? && s.slots[1].reading.value != after
    ensures var t := Apply(s, WriteStore(0, after));
      Current(t) == after && t.slots[0].Written? && t.slots[1].Holding? && !HoldsCurrent(t)
  {
    assert Apply(s, WriteStore(0, after)).slots[1] == s.slots[1];
  }

  /** With two requests or more such a reading, of any value or of none, can be in hand at the invalidation. */
  lemma StaleInHand(n: nat, before: Days, after: Days, now: int) returns (steps: seq<Step>)
    requires n >= 2 && before != after && (after.Some? ==> after.value >= 0)
    ensures var t := After(Start(n, before, now), steps);
      Current(t) == after && t.slots[0].Written? && t.slots[1].Holding? && !HoldsCurrent(t)
  {
    var s := Start(n, before, now);
    Extend(s, [], Get(1));
    assert [] + [Get(1)] == [Get(1)];
    Extend(s, [Get(1)], CheckNegative(1));
    Extend(s, [Get(1)] + [CheckNegative(1)], ReadStore(1));
    ReadsStore(s);
    steps := [Get(1)] + [CheckNegative(1)] + [ReadStore(1)];
    ThenWritten(After(s, steps), after);
    Extend(s, steps, WriteStore(0, after));
    steps := steps + [WriteStore(0, after)];
  }

  // ---------------------------------------------------------------------------------------
  // Whether an override can be missed
  // ---------------------------------------------------------------------------------------

  /** With a single request in flight, the cache agrees with the store except during an update. */
  predicate Alone(s: State) {
    && s.held != [] && |s.slots| == 1
    && (s.entry.Some? && !s.slots[0].Written? ==> s.entry.value.reading.value == Current(s))
    && (s.slots[0].Holding? ==> s.slots[0].reading.value == Current(s))
    && (s.slots[0].Missed? && s.entry.Some? ==> s.entry.value.reading.value.None?)
  }

  /** The step answers no lookup, or answers one with what the store holds. */
  predicate AnswersRightly(s: State, step: Step)
    requires s.held != []
  {
    var was, now := s.answers, Apply(s, step).answers;
    now == was || (|now| > 0 && now[..|now| - 1] == was && Value(now[|now| - 1]) == Current(s))
  }

  lemma AloneStays(s: State, step: Step)
    requires Alone(s)
    ensures Alone(Apply(s, step))
  {
  }

  lemma AloneAnswers(s: State, step: Step)
    requires Alone(s)
    ensures AnswersRightly(s, step)
  {
    var now := Apply(s, step).answers;
    if now != s.answers {
      var last := now[|s.answers|];
      assert now == s.answers + [last] && step.slot == 0;
      assert now[..|now| - 1] == s.answers;
      assert Value(last) == Current(s);
    }
  }

  /** With a single request in flight every answer is what the store holds. */
  lemma {:induction false} AloneIsExact(days: Days, now: int, steps: seq<Step>, step: Step)
    ensures Alone(After(Start(1, days, now), steps)) && AnswersRightly(After(Start(1, days, now), steps), step)
  {
    if steps != [] {
      AloneIsExact(days, now, steps[..|steps| - 1], steps[|steps| - 1]);
      AloneStays(After(Start(1, days, now), steps[..|steps| - 1]), steps[|steps| - 1]);
    }
    AloneAnswers(After(Start(1, days, now), steps), step);
  }

  /** With two or more, a lookup can be told that there is no override when there has been one all along. */
  lemma OverrideMissed(n: nat, days: int, now: int) returns (steps: seq<Step>)
    requires n >= 2
    ensures NoWrite(steps)
    ensures var s := After(Start(n, Some(days), now), steps);
      && Current(s) == Some(days) && s.slots[0].Missed?
      && Apply(s, CheckNegative(0)).answers == s.answers + [NoOverride(Raced(0, 1), now)]
  {
    var s, r, missed := Start(n, Some(days), now), Reading(Some(days), 0, now), Missed(None, now, 0);
    Extend(s, [], Get(0));
    assert [] + [Get(0)] == [Get(0)];
    Extend(s, [Get(0)], Get(1));
    steps := [Get(0)] + [Get(1)];
    assert After(s, steps) == s.(slots := s.slots[0 := missed][1 := missed]);
    Extend(s, steps, CheckNegative(1));
    Extend(s, steps + [CheckNegative(1)], ReadStore(1));
    steps := steps + [CheckNegative(1)] + [ReadStore(1)];
    assert After(s, steps) == s.(slots := s.slots[0 := missed][1 := Holding(r)]);
    Extend(s, steps, Set(1));
    steps := steps + [Set(1)];
  }

  /** In every run every lookup is answered with what the store holds when it is answered. */
  ghost predicate Exact(n: nat) {
    forall days, now, steps, step :: AnswersRightly(After(Start(n, days, now), steps), step)
  }

  /** That is so exactly for one request at a time. */
  lemma ExactIff(n: nat)
    ensures Exact(n) <==> n <= 1
  {
    if n <= 1 {
      forall days, now, steps, step ensures AnswersRightly(After(Start(n, days, now), steps), step) {
        if n == 1 {
          AloneIsExact(days, now, steps, step);
        }
      }
    } else {
      var steps := OverrideMissed(n, 7, 0);
      assert !AnswersRightly(After(Start(n, Some(7), 0), steps), CheckNegative(0));
    }
  }

  // ---------------------------------------------------------------------------------------
  // One request at a time
  // ---------------------------------------------------------------------------------------

  datatype Cached = Cached(value: Days, expires: int)

  datatype Lookup = Found(days: Days) | NotFound

  class GraceWindows {
    var store: map<string, Days>
    var cache: map<string, Cached>

    /** Whatever is cached is what the store holds. */
    ghost predicate Valid()
      reads this
    {
      forall a :: a in cache ==> a in store && cache[a].value == store[a]
    }

    constructor (accounts: map<string, Days>)
      ensures Valid() && store == accounts
    {
      store, cache := accounts, map[];
    }

    method CacheGet(account: string, now: int) returns (v: Days)
      requires Valid()
      modifies this`cache
      ensures Valid()
      ensures v.Some? ==> account in cache
      ensures account in cache <==> account in old(cache) && now <= old(cache)[account].expires
      ensures account in cache ==> v == store[account] && cache == old(cache)
      ensures cache - {account} == old(cache) - {account}
    {
      if account !in cache || now > cache[account].expires {
        cache := cache - {account};
        return None;
      }
      v := cache[account].value;
    }

    /** With one request at a time a lookup always returns what the store holds. */
    method ResolveGraceWindow(account: string, now: int) returns (r: Lookup)
      requires Valid()
      modifies this`cache
      ensures Valid()
      ensures r == if account in store then Found(store[account]) else NotFound
      ensures account in store && !(account in old(cache) && now <= old(cache)[account].expires) ==>
        account in cache && cache[account].expires == now + 60_000_000_000
      ensures account in old(cache) && now <= old(cache)[account].expires ==> cache == old(cache)
    {
      var v := CacheGet(account, now);
      if v.Some? || account in cache {
        return Found(v);
      }
      if account !in store {
        return NotFound;
      }
      cache := cache[account := Cached(store[account], now + TTL)];
      r := Found(store[account]);
    }

    /** `stored` tells whether the store took the write; the handler does not look. */
    method SetGraceWindow(account: string, days: Days, stored: bool, now: int) returns (accepted: bool, before: Lookup)
      requires Valid()
      modifies this
      ensures Valid()
      ensures accepted <==> !(days.Some? && days.value < 0)
      ensures accepted ==> account !in cache
      ensures accepted ==> before == if account in old(store) then Found(old(store)[account]) else NotFound
      ensures store == if accepted && stored && account in old(store) then old(store)[account := days] else old(store)
    {
      if days.Some? && days.value < 0 {
        return false, NotFound;
      }
      before := ResolveGraceWindow(account, now);
      if stored && account in store {
        store := store[account := days];
      }
      cache := cache - {account};
      accepted := true;
    }
  }
}
