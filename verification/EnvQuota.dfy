/**
 Environment variables of one app, and the per-plan cap on how many rows it may store.

 `setEnv` talks to the store three times: it counts the app's rows over all scopes, it lists
 one scope to see whether the row it is about to write is already there, and it upserts.
 Nothing holds a lock across the three calls, and a `deleteEnv`, whose only store call is the
 delete itself, may run between any two of them. The first half of this module is that protocol
 as a transition system; the second half is the pair of handlers run one at a time.
 */
module EnvQuota {
  import opened Options

  datatype RowKey = RowKey(scope: string, name: string)

  type Rows = map<RowKey, string>

  /** A slot for one PUT in flight, and how far through its store calls the PUT has come. */
  datatype Slot =
    | Idle
    | Started(row: RowKey, value: string)
    | Counted(row: RowKey, value: string, count: nat)
    | Admitted(row: RowKey, value: string)

  datatype Outcome = Stored | OverQuota(count: nat) | Deleted | EnvVarNotFound | Unavailable

  datatype Response = Response(row: RowKey, outcome: Outcome)

  datatype State = State(rows: Rows, slots: seq<Slot>, responses: seq<Response>)

  /** One atomic action. `Fail` is a store call of the PUT in `slot` that returns an error. */
  datatype Step =
    | Arrive(slot: nat, row: RowKey, value: string)
    | CountRows(slot: nat)
    | CheckExists(slot: nat)
    | Upsert(slot: nat)
    | Fail(slot: nat)
    | DeleteRow(target: RowKey)

  predicate Enabled(s: State, step: Step) {
    step.DeleteRow? || (step.slot < |s.slots| &&
      match step
      case Arrive(i, _, _) => s.slots[i].Idle?
      case CountRows(i) => s.slots[i].Started?
      case CheckExists(i) => s.slots[i].Counted?
      case Upsert(i) => s.slots[i].Admitted?
      case Fail(i) => !s.slots[i].Idle?)
  }

  function Finish(s: State, i: nat, rows: Rows, outcome: Outcome): State
    requires i < |s.slots| && !s.slots[i].Idle?
  {
    State(rows, s.slots[i := Idle], s.responses + [Response(s.slots[i].row, outcome)])
  }

  function Apply(envVarsMax: nat, s: State, step: Step): (s': State)
    ensures |s'.slots| == |s.slots|
  {
    if !Enabled(s, step) then s else
    match step
    case Arrive(i, row, value) => s.(slots := s.slots[i := Started(row, value)])
    case CountRows(i) => s.(slots := s.slots[i := Counted(s.slots[i].row, s.slots[i].value, |s.rows|)])
    case CheckExists(i) =>
      if s.slots[i].row !in s.rows && s.slots[i].count >= envVarsMax then
        Finish(s, i, s.rows, OverQuota(s.slots[i].count))
      else
        s.(slots := s.slots[i := Admitted(s.slots[i].row, s.slots[i].value)])
    case Upsert(i) => Finish(s, i, s.rows[s.slots[i].row := s.slots[i].value], Stored)
    case Fail(i) => Finish(s, i, s.rows, Unavailable)
    case DeleteRow(row) =>
      if row in s.rows then State(s.rows - {row}, s.slots, s.responses + [Response(row, Deleted)])
      else s.(responses := s.responses + [Response(row, EnvVarNotFound)])
  }

  function Start(n: nat, rows: Rows): State { State(rows, seq(n, _ => Idle), []) }

  function After(envVarsMax: nat, n: nat, rows: Rows, steps: seq<Step>): (s: State)
    ensures |s.slots| == n
  {
    if steps == [] then Start(n, rows)
    else Apply(envVarsMax, After(envVarsMax, n, rows, steps[..|steps| - 1]), steps[|steps| - 1])
  }

  /** A run with at most `n` PUTs in flight, in which every step is enabled when it is taken. */
  predicate IsRun(envVarsMax: nat, n: nat, rows: Rows, steps: seq<Step>) {
    steps == [] ||
      (&& IsRun(envVarsMax, n, rows, steps[..|steps| - 1])
       && Enabled(After(envVarsMax, n, rows, steps[..|steps| - 1]), steps[|steps| - 1]))
  }

  // ---------------------------------------------------------------------------------------
  // The exact overshoot
  // ---------------------------------------------------------------------------------------

  /** The most rows that `n` concurrent PUTs can ever leave stored. */
  function Peak(envVarsMax: nat, n: nat): nat
    requires n >= 1
  {
    if envVarsMax == 0 then 0 else envVarsMax + n - 1
  }

  /** The PUT passed the check, or its count was low enough that it is sure to. */
  predicate Pledged(envVarsMax: nat, slot: Slot) {
    slot.Admitted? || (slot.Counted? && slot.count < envVarsMax)
  }

  function PledgedRows(envVarsMax: nat, slots: seq<Slot>): set<RowKey> {
    set i | 0 <= i < |slots| && Pledged(envVarsMax, slots[i]) :: slots[i].row
  }

  /** Every row that is stored or may yet be stored without another count being taken. */
  function Exposed(envVarsMax: nat, s: State): set<RowKey> {
    s.rows.Keys + PledgedRows(envVarsMax, s.slots)
  }

  lemma SubsetSize<A>(a: set<A>, b: set<A>)
    requires a <= b
    ensures |a| <= |b|
  {
    assert b == a + (b - a);
  }

  lemma {:induction false} PledgedFewerThanSlots(envVarsMax: nat, slots: seq<Slot>)
    ensures |PledgedRows(envVarsMax, slots)| <= |slots|
  {
    if slots != [] {
      var rest, last := slots[..|slots| - 1], slots[|slots| - 1];
      PledgedFewerThanSlots(envVarsMax, rest);
      var more := if Pledged(envVarsMax, last) then {last.row} else {};
      assert PledgedRows(envVarsMax, slots) <= PledgedRows(envVarsMax, rest) + more;
      SubsetSize(PledgedRows(envVarsMax, slots), PledgedRows(envVarsMax, rest) + more);
    }
  }

  lemma ExposedByCount(envVarsMax: nat, s: State)
    ensures |Exposed(envVarsMax, s)| <= |s.rows| + |s.slots|
  {
    PledgedFewerThanSlots(envVarsMax, s.slots);
    var more := PledgedRows(envVarsMax, s.slots) - s.rows.Keys;
    assert Exposed(envVarsMax, s) == s.rows.Keys + more;
    SubsetSize(more, PledgedRows(envVarsMax, s.slots));
  }

  /** A pledge in a slot was there before the step, or is for a stored row, or is a fresh count. */
  lemma PledgeOrigin(envVarsMax: nat, s: State, step: Step, i: nat)
    requires Enabled(s, step) && i < |s.slots|
    requires Pledged(envVarsMax, Apply(envVarsMax, s, step).slots[i])
    requires step.CountRows? ==> |s.rows| >= envVarsMax
    ensures Apply(envVarsMax, s, step).slots[i].row in Exposed(envVarsMax, s)
  {
    var row := Apply(envVarsMax, s, step).slots[i].row;
    if row !in s.rows {
      assert Pledged(envVarsMax, s.slots[i]) && s.slots[i].row == row;
    }
  }

  lemma StoredOrigin(envVarsMax: nat, s: State, step: Step)
    requires Enabled(s, step)
    ensures Apply(envVarsMax, s, step).rows.Keys <= Exposed(envVarsMax, s)
  {
    if step.Upsert? {
      assert Pledged(envVarsMax, s.slots[step.slot]);
    }
  }

  /** Only a count below the cap can enlarge the exposed set. */
  lemma ExposedShrinks(envVarsMax: nat, s: State, step: Step)
    requires Enabled(s, step) && (step.CountRows? ==> |s.rows| >= envVarsMax)
    ensures Exposed(envVarsMax, Apply(envVarsMax, s, step)) <= Exposed(envVarsMax, s)
  {
    var slots := Apply(envVarsMax, s, step).slots;
    StoredOrigin(envVarsMax, s, step);
    forall i | 0 <= i < |slots| && Pledged(envVarsMax, slots[i]) ensures slots[i].row in Exposed(envVarsMax, s) {
      PledgeOrigin(envVarsMax, s, step, i);
    }
  }

  lemma ExposedStep(envVarsMax: nat, s: State, step: Step)
    requires |s.slots| >= 1 && Enabled(s, step) && |Exposed(envVarsMax, s)| <= Peak(envVarsMax, |s.slots|)
    ensures |Exposed(envVarsMax, Apply(envVarsMax, s, step))| <= Peak(envVarsMax, |s.slots|)
  {
    var s' := Apply(envVarsMax, s, step);
    if step.CountRows? && |s.rows| < envVarsMax {
      ExposedByCount(envVarsMax, s');
    } else {
      ExposedShrinks(envVarsMax, s, step);
      SubsetSize(Exposed(envVarsMax, s'), Exposed(envVarsMax, s));
    }
  }

  lemma {:induction false} ExposedBounded(envVarsMax: nat, n: nat, rows: Rows, steps: seq<Step>)
    requires n >= 1 && |rows| <= envVarsMax && IsRun(envVarsMax, n, rows, steps)
    ensures |Exposed(envVarsMax, After(envVarsMax, n, rows, steps))| <= Peak(envVarsMax, n)
  {
    if steps == [] {
      assert Exposed(envVarsMax, Start(n, rows)) == rows.Keys;
    } else {
      var before := steps[..|steps| - 1];
      ExposedBounded(envVarsMax, n, rows, before);
      ExposedStep(envVarsMax, After(envVarsMax, n, rows, before), steps[|steps| - 1]);
    }
  }

  /** Every interleaving of at most `n` PUTs, and any number of DELETEs, stays within the peak. */
  lemma OvershootBounded(envVarsMax: nat, n: nat, rows: Rows, steps: seq<Step>)
    requires n >= 1 && |rows| <= envVarsMax && IsRun(envVarsMax, n, rows, steps)
    ensures |After(envVarsMax, n, rows, steps).rows| <= Peak(envVarsMax, n)
    ensures n == 1 ==> |After(envVarsMax, n, rows, steps).rows| <= envVarsMax
  {
    var s := After(envVarsMax, n, rows, steps);
    ExposedBounded(envVarsMax, n, rows, steps);
    SubsetSize(s.rows.Keys, Exposed(envVarsMax, s));
  }

  // The peak is reached: `n` PUTs of fresh rows all count, all check, and then all upsert.

  predicate Distinct(names: seq<RowKey>) {
    forall i, j :: 0 <= i < j < |names| ==> names[i] != names[j]
  }

  function RowsNamed(names: seq<RowKey>): (rows: Rows)
    requires Distinct(names)
    ensures forall k :: k in rows <==> k in names
    ensures |rows| == |names|
  {
    if names == [] then map[]
    else
      var rest := names[..|names| - 1];
      assert names == rest + [names[|names| - 1]];
      assert names[|names| - 1] !in rest;
      RowsNamed(rest)[names[|names| - 1] := "on"]
  }

  lemma Extend(envVarsMax: nat, n: nat, rows: Rows, steps: seq<Step>, step: Step)
    requires IsRun(envVarsMax, n, rows, steps) && Enabled(After(envVarsMax, n, rows, steps), step)
    ensures IsRun(envVarsMax, n, rows, steps + [step])
    ensures After(envVarsMax, n, rows, steps + [step]) == Apply(envVarsMax, After(envVarsMax, n, rows, steps), step)
  {
    assert (steps + [step])[..|steps|] == steps;
  }

  /** The PUT of `row` in slot `i`, when `arrived` slots have arrived, `counted` have counted and so on. */
  function Racer(row: RowKey, base: nat, i: nat, arrived: nat, counted: nat, admitted: nat, written: nat): Slot {
    if i < written || arrived <= i then Idle
    else if i < admitted then Admitted(row, "on")
    else if i < counted then Counted(row, "on", base)
    else Started(row, "on")
  }

  /** PUTs of the rows `names[base..]` caught mid-race. */
  predicate Racing(s: State, names: seq<RowKey>, base: nat, arrived: nat, counted: nat, admitted: nat, written: nat) {
    && base + |s.slots| == |names| && written <= |s.slots|
    && |s.rows| == base + written
    && (forall i :: 0 <= i < |names| ==> (names[i] in s.rows <==> i < base + written))
    && (forall i :: 0 <= i < |s.slots| ==>
          s.slots[i] == Racer(names[base + i], base, i, arrived, counted, admitted, written))
  }

  lemma RaceStart(n: nat, names: seq<RowKey>, base: nat)
    requires Distinct(names) && |names| == base + n
    ensures Racing(Start(n, RowsNamed(names[..base])), names, base, 0, 0, 0, 0)
  {
    assert forall i :: 0 <= i < |names| ==> (names[i] in names[..base] <==> i < base);
  }

  lemma RaceArrive(envVarsMax: nat, s: State, names: seq<RowKey>, base: nat, k: nat)
    requires Racing(s, names, base, k, 0, 0, 0) && k < |s.slots|
    ensures Enabled(s, Arrive(k, names[base + k], "on"))
    ensures Racing(Apply(envVarsMax, s, Arrive(k, names[base + k], "on")), names, base, k + 1, 0, 0, 0)
  {
  }

  lemma RaceCount(envVarsMax: nat, s: State, names: seq<RowKey>, base: nat, k: nat)
    requires Racing(s, names, base, |s.slots|, k, 0, 0) && k < |s.slots|
    ensures Enabled(s, CountRows(k))
    ensures Racing(Apply(envVarsMax, s, CountRows(k)), names, base, |s.slots|, k + 1, 0, 0)
  {
  }

  lemma RaceCheck(envVarsMax: nat, s: State, names: seq<RowKey>, base: nat, k: nat)
    requires Racing(s, names, base, |s.slots|, |s.slots|, k, 0) && k < |s.slots| && base < envVarsMax
    ensures Enabled(s, CheckExists(k))
    ensures Racing(Apply(envVarsMax, s, CheckExists(k)), names, base, |s.slots|, |s.slots|, k + 1, 0)
  {
  }

  lemma RaceUpsert(envVarsMax: nat, s: State, names: seq<RowKey>, base: nat, k: nat)
    requires Racing(s, names, base, |s.slots|, |s.slots|, |s.slots|, k) && k < |s.slots| && Distinct(names)
    ensures Enabled(s, Upsert(k))
    ensures Racing(Apply(envVarsMax, s, Upsert(k)), names, base, |s.slots|, |s.slots|, |s.slots|, k + 1)
  {
    assert names[base + k] !in s.rows;
  }

  lemma {:induction false} AllArrive(envVarsMax: nat, n: nat, names: seq<RowKey>, base: nat) returns (steps: seq<Step>)
    requires Distinct(names) && |names| == base + n
    ensures IsRun(envVarsMax, n, RowsNamed(names[..base]), steps)
    ensures Racing(After(envVarsMax, n, RowsNamed(names[..base]), steps), names, base, n, 0, 0, 0)
  {
    var rows := RowsNamed(names[..base]);
    steps := [];
    RaceStart(n, names, base);
    for k := 0 to n
      invariant IsRun(envVarsMax, n, rows, steps) && Racing(After(envVarsMax, n, rows, steps), names, base, k, 0, 0, 0)
    {
      RaceArrive(envVarsMax, After(envVarsMax, n, rows, steps), names, base, k);
      Extend(envVarsMax, n, rows, steps, Arrive(k, names[base + k], "on"));
      steps := steps + [Arrive(k, names[base + k], "on")];
    }
  }

  lemma {:induction false} AllCount(envVarsMax: nat, n: nat, names: seq<RowKey>, base: nat) returns (steps: seq<Step>)
    requires Distinct(names) && |names| == base + n
    ensures IsRun(envVarsMax, n, RowsNamed(names[..base]), steps)
    ensures Racing(After(envVarsMax, n, RowsNamed(names[..base]), steps), names, base, n, n, 0, 0)
  {
    var rows := RowsNamed(names[..base]);
    steps := AllArrive(envVarsMax, n, names, base);
    for k := 0 to n
      invariant IsRun(envVarsMax, n, rows, steps) && Racing(After(envVarsMax, n, rows, steps), names, base, n, k, 0, 0)
    {
      RaceCount(envVarsMax, After(envVarsMax, n, rows, steps), names, base, k);
      Extend(envVarsMax, n, rows, steps, CountRows(k));
      steps := steps + [CountRows(k)];
    }
  }

  lemma RaceCheckNext(
    envVarsMax: nat, n: nat, rows: Rows, steps: seq<Step>, names: seq<RowKey>, base: nat, k: nat)
    requires Distinct(names) && |names| == base + n && base < envVarsMax && k < n
    requires IsRun(envVarsMax, n, rows, steps) && Racing(After(envVarsMax, n, rows, steps), names, base, n, n, k, 0)
    ensures IsRun(envVarsMax, n, rows, steps + [CheckExists(k)])
    ensures Racing(After(envVarsMax, n, rows, steps + [CheckExists(k)]), names, base, n, n, k + 1, 0)
  {
    RaceCheck(envVarsMax, After(envVarsMax, n, rows, steps), names, base, k);
    Extend(envVarsMax, n, rows, steps, CheckExists(k));
  }

  lemma {:induction false} AllAdmitted(envVarsMax: nat, n: nat, names: seq<RowKey>, base: nat)
    returns (steps: seq<Step>)
    requires Distinct(names) && |names| == base + n && base < envVarsMax
    ensures IsRun(envVarsMax, n, RowsNamed(names[..base]), steps)
    ensures Racing(After(envVarsMax, n, RowsNamed(names[..base]), steps), names, base, n, n, n, 0)
  {
    var rows := RowsNamed(names[..base]);
    steps := AllCount(envVarsMax, n, names, base);
    for k := 0 to n
      invariant IsRun(envVarsMax, n, rows, steps) && Racing(After(envVarsMax, n, rows, steps), names, base, n, n, k, 0)
    {
      RaceCheckNext(envVarsMax, n, rows, steps, names, base, k);
      steps := steps + [CheckExists(k)];
    }
  }

  /** Whatever the cap and the degree of concurrency, some run over any distinct rows ends exactly at the peak. */
  lemma {:induction false} OvershootReached(envVarsMax: nat, n: nat, names: seq<RowKey>)
    returns (rows: Rows, steps: seq<Step>)
    requires n >= 1 && Distinct(names) && |names| == Peak(envVarsMax, n)
    ensures |rows| <= envVarsMax && IsRun(envVarsMax, n, rows, steps)
    ensures |After(envVarsMax, n, rows, steps).rows| == Peak(envVarsMax, n)
    ensures forall k :: k in names ==> k in After(envVarsMax, n, rows, steps).rows
  {
    if envVarsMax == 0 {
      return map[], [];
    }
    var base := envVarsMax - 1;
    rows := RowsNamed(names[..base]);
    steps := AllAdmitted(envVarsMax, n, names, base);
    for k := 0 to n
      invariant IsRun(envVarsMax, n, rows, steps) && Racing(After(envVarsMax, n, rows, steps), names, base, n, n, n, k)
    {
      RaceUpsert(envVarsMax, After(envVarsMax, n, rows, steps), names, base, k);
      Extend(envVarsMax, n, rows, steps, Upsert(k));
      steps := steps + [Upsert(k)];
    }
  }

  // ---------------------------------------------------------------------------------------
  // No refusal without a reason
  // ---------------------------------------------------------------------------------------

  lemma CountIsFresh(envVarsMax: nat, s: State, step: Step, i: nat)
    requires i < |s.slots| && Apply(envVarsMax, s, step).slots[i].Counted?
    ensures Apply(envVarsMax, s, step).slots[i] == s.slots[i] || Apply(envVarsMax, s, step).slots[i].count == |s.rows|
  {
  }

  /** The count a PUT carries was the number of stored rows at some earlier point of the run. */
  lemma {:induction false} CountWasSeen(envVarsMax: nat, n: nat, rows: Rows, steps: seq<Step>, slot: nat)
    returns (counted: seq<Step>)
    requires slot < n && After(envVarsMax, n, rows, steps).slots[slot].Counted?
    ensures counted < steps
    ensures |After(envVarsMax, n, rows, counted).rows| == After(envVarsMax, n, rows, steps).slots[slot].count
  {
    if steps != [] {
      var before := steps[..|steps| - 1];
      CountIsFresh(envVarsMax, After(envVarsMax, n, rows, before), steps[|steps| - 1], slot);
      if After(envVarsMax, n, rows, steps).slots[slot] == After(envVarsMax, n, rows, before).slots[slot] {
        counted := CountWasSeen(envVarsMax, n, rows, before, slot);
      } else {
        counted := before;
      }
    }
  }

  lemma RefusalStep(envVarsMax: nat, s: State, step: Step, r: nat)
    requires r < |Apply(envVarsMax, s, step).responses|
    ensures r < |s.responses| ==> Apply(envVarsMax, s, step).responses[r] == s.responses[r]
    ensures var response := Apply(envVarsMax, s, step).responses[r];
      r >= |s.responses| && response.outcome.OverQuota? ==>
        && step.CheckExists? && step.slot < |s.slots| && s.slots[step.slot].Counted?
        && response == Response(s.slots[step.slot].row, OverQuota(s.slots[step.slot].count))
        && response.row !in s.rows && response.outcome.count >= envVarsMax
  {
  }

  /**
   A PUT is refused only when the app held at least the cap at some earlier point and the row was
   absent when the request looked for it. So replacing a row is never refused, and neither is
   anything in a run that stays below the cap.
   */
  lemma {:induction false} RefusalJustified(envVarsMax: nat, n: nat, rows: Rows, steps: seq<Step>, r: nat)
    returns (counted: seq<Step>, checked: seq<Step>)
    requires r < |After(envVarsMax, n, rows, steps).responses|
    requires After(envVarsMax, n, rows, steps).responses[r].outcome.OverQuota?
    ensures counted < checked < steps
    ensures var refusal := After(envVarsMax, n, rows, steps).responses[r];
      && |After(envVarsMax, n, rows, counted).rows| == refusal.outcome.count >= envVarsMax
      && refusal.row !in After(envVarsMax, n, rows, checked).rows
  {
    if steps != [] {
      var before := steps[..|steps| - 1];
      RefusalStep(envVarsMax, After(envVarsMax, n, rows, before), steps[|steps| - 1], r);
      if r < |After(envVarsMax, n, rows, before).responses| {
        counted, checked := RefusalJustified(envVarsMax, n, rows, before, r);
      } else {
        checked := before;
        counted := CountWasSeen(envVarsMax, n, rows, before, steps[|steps| - 1].slot);
      }
    }
  }

  // ---------------------------------------------------------------------------------------
  // The handlers, one call at a time
  // ---------------------------------------------------------------------------------------

  function SetEffect(envVarsMax: nat, rows: Rows, row: RowKey, value: string): (r: (Rows, Outcome))
    ensures row in rows ==> r.1 == Stored && |r.0| == |rows|
    ensures |rows| <= envVarsMax ==> |r.0| <= envVarsMax
    ensures r.1 == Stored ==> row in r.0 && r.0[row] == value && r.0 - {row} == rows - {row}
    ensures r.1 != Stored ==> r.0 == rows && r.1 == OverQuota(|rows|) && |rows| >= envVarsMax
  {
    if row !in rows && |rows| >= envVarsMax then (rows, OverQuota(|rows|))
    else
      assert row in rows ==> rows[row := value].Keys == rows.Keys;
      (rows[row := value], Stored)
  }

  /** A PUT whose steps nothing comes between has the effect and the answer of the whole call. */
  lemma UndisturbedPut(envVarsMax: nat, s0: State, i: nat, row: RowKey, value: string)
    requires i < |s0.slots| && s0.slots[i].Idle?
    ensures var s1 := Apply(envVarsMax, s0, Arrive(i, row, value));
      var s2 := Apply(envVarsMax, s1, CountRows(i));
      var s3 := Apply(envVarsMax, s2, CheckExists(i));
      var (rows', outcome) := SetEffect(envVarsMax, s0.rows, row, value);
      && Enabled(s1, CountRows(i)) && Enabled(s2, CheckExists(i)) && (Enabled(s3, Upsert(i)) <==> outcome == Stored)
      && Apply(envVarsMax, s3, Upsert(i)) == State(rows', s0.slots, s0.responses + [Response(row, outcome)])
  {
    var s1 := Apply(envVarsMax, s0, Arrive(i, row, value));
    assert s1 == s0.(slots := s0.slots[i := Started(row, value)]);
    var s2 := Apply(envVarsMax, s1, CountRows(i));
    assert s2 == s0.(slots := s0.slots[i := Counted(row, value, |s0.rows|)]);
    assert s0.slots == s0.slots[i := Idle];
  }

  /** A DELETE, whose one store call nothing can come between, has the effect and the answer of the whole call. */
  lemma UndisturbedDelete(envVarsMax: nat, s: State, row: RowKey)
    ensures Apply(envVarsMax, s, DeleteRow(row)) ==
      State(s.rows - {row}, s.slots,
            s.responses + [Response(row, if row in s.rows then Deleted else EnvVarNotFound)])
  {
    assert row !in s.rows ==> s.rows - {row} == s.rows;
  }

  class EnvHandler {
    const envVarsMax: nat
    var rows: Rows

    constructor (envVarsMax: nat)
      ensures this.envVarsMax == envVarsMax && rows == map[]
    {
      this.envVarsMax := envVarsMax;
      rows := map[];
    }

    /** The store's listing of one scope, in some order. */
    method ListAppEnvInScope(scope: string) returns (listing: seq<RowKey>)
      ensures forall k :: k in listing <==> k in rows && k.scope == scope
    {
      listing := [];
      var left := rows.Keys;
      while left != {}
        invariant left <= rows.Keys
        invariant forall k :: k in listing <==> k in rows.Keys - left && k.scope == scope
      {
        var k :| k in left;
        if k.scope == scope {
          listing := listing + [k];
        }
        left := left - {k};
      }
    }

    method EnvExistsInScope(scope: string, name: string) returns (found: bool)
      ensures found <==> RowKey(scope, name) in rows
    {
      var listing := ListAppEnvInScope(scope);
      for i := 0 to |listing|
        invariant forall j :: 0 <= j < i ==> listing[j].name != name
      {
        if listing[i].name == name {
          assert listing[i] in listing;
          return true;
        }
      }
      assert RowKey(scope, name) !in listing;
      return false;
    }

    /** `None` admits the write; otherwise the count that filled the plan. */
    method CheckEnvQuota(scope: string, name: string) returns (problem: Option<nat>)
      ensures problem.None? <==> RowKey(scope, name) in rows || |rows| < envVarsMax
      ensures problem.Some? ==> problem.value == |rows|
    {
      var n := |rows|;
      var already := EnvExistsInScope(scope, name);
      if !already && n >= envVarsMax {
        return Some(n);
      }
      return None;
    }

    method SetEnv(scope: string, name: string, value: string) returns (outcome: Outcome)
      modifies this
      ensures (rows, outcome) == SetEffect(envVarsMax, old(rows), RowKey(scope, name), value)
      ensures old(|rows|) <= envVarsMax ==> |rows| <= envVarsMax
    {
      var problem := CheckEnvQuota(scope, name);
      if problem.Some? {
        return OverQuota(problem.value);
      }
      rows := rows[RowKey(scope, name) := value];
      return Stored;
    }

    method DeleteEnv(scope: string, name: string) returns (outcome: Outcome)
      modifies this
      ensures rows == old(rows) - {RowKey(scope, name)}
      ensures outcome == if RowKey(scope, name) in old(rows) then Deleted else EnvVarNotFound
    {
      var row := RowKey(scope, name);
      if row !in rows {
        return EnvVarNotFound;
      }
      rows := rows - {row};
      return Deleted;
    }
  }
}
