/**
 The asynchronous audit path for failed logins: request handlers count an attempt and try a
 non-blocking send into a bounded channel, one flusher goroutine drains at most a batch of rows
 each time it wakes, and `Close` closes the channel, wakes the flusher and waits for it.

 Assumptions on the callers, as the code needs them: `Start` ran once before the first step, and
 no handler is between its counter and its send when the channel is closed, nor starts after
 (a send on a closed channel panics).
 */
module FailedLoginAudit {
  import opened Options

  datatype Row = Row(ip: string, emailHash: string, userAgent: string, at: int)

  /** Channel capacity and the most rows one wake-up of the flusher drains. */
  datatype Config = Config(capacity: nat, batch: nat)

  const PRODUCTION := Config(4096, 1000)

  /** The flusher waits in its select, drains, or has returned; a final drain is followed by the return. */
  datatype Flusher = Waiting | Draining(taken: nat, last: bool) | Exited

  datatype Closer = Open | ChannelClosed | Signalled | Returned

  /** What held when `Close` closed the channel: rows buffered, rows handed over and rows in the table so far. */
  datatype Closing = Closing(buffered: nat, cancelled: bool, handed: nat, inTable: nat)

  /**
   The counters are the three the code exports; `events` is the table `AppendEvent` writes.
   `attempted`, `lost`, `accepted`, `handed` and `oks` are history: every attempt, every dropped
   row, the rows in the order the channel took them, the rows in the order they were handed to
   `AppendEvent`, and whether each of those calls succeeded.
   */
  datatype State = State(
    total: nat, dropped: nat, writeFailures: nat,
    pending: multiset<Row>, channel: seq<Row>, hand: Option<Row>, events: seq<Row>,
    flusher: Flusher, cancelled: bool, closer: Closer, closing: Option<Closing>,
    attempted: multiset<Row>, lost: multiset<Row>, accepted: seq<Row>, handed: seq<Row>, oks: seq<bool>)

  const INITIAL :=
    State(0, 0, 0, multiset{}, [], None, [], Waiting, false, Open, None, multiset{}, multiset{}, [], [], [])

  datatype Step =
    | CountAttempt(row: Row)
    | Send(row: Row)
    | Drop(row: Row)
    | Tick
    | WakeOnClose
    | WakeOnCancel
    | Take
    | Flush(ok: bool)
    | DrainEnd
    | CancelContext
    | CloseChannel
    | CloseSignal
    | CloseReturn

  predicate Enabled(cfg: Config, s: State, step: Step) {
    match step
    case CountAttempt(_) => s.closer.Open?
    case Send(row) => row in s.pending && |s.channel| < cfg.capacity
    case Drop(row) => row in s.pending && |s.channel| >= cfg.capacity
    case Tick => s.flusher.Waiting?
    case WakeOnClose => s.flusher.Waiting? && (s.closer.Signalled? || s.closer.Returned?)
    case WakeOnCancel => s.flusher.Waiting? && s.cancelled
    case Take => s.flusher.Draining? && s.hand.None? && s.flusher.taken < cfg.batch && s.channel != []
    case Flush(_) => s.flusher.Draining? && s.hand.Some?
    case DrainEnd => s.flusher.Draining? && s.hand.None? && (s.flusher.taken >= cfg.batch || s.channel == [])
    case CancelContext => !s.cancelled
    case CloseChannel => s.closer.Open? && s.pending == multiset{}
    case CloseSignal => s.closer.ChannelClosed?
    case CloseReturn => s.closer.Signalled? && s.flusher.Exited?
  }

  function Apply(cfg: Config, s: State, step: Step): State {
    if !Enabled(cfg, s, step) then s else
    match step
    case CountAttempt(row) =>
      s.(total := s.total + 1, pending := s.pending + multiset{row}, attempted := s.attempted + multiset{row})
    case Send(row) =>
      s.(pending := s.pending - multiset{row}, channel := s.channel + [row], accepted := s.accepted + [row])
    case Drop(row) =>
      s.(pending := s.pending - multiset{row}, dropped := s.dropped + 1, lost := s.lost + multiset{row})
    case Tick => s.(flusher := Draining(0, false))
    case WakeOnClose => s.(flusher := Draining(0, true))
    case WakeOnCancel => s.(flusher := Draining(0, true))
    case Take => s.(hand := Some(s.channel[0]), channel := s.channel[1..])
    case Flush(ok) =>
      s.(hand := None, flusher := s.flusher.(taken := s.flusher.taken + 1),
         handed := s.handed + [s.hand.value], oks := s.oks + [ok],
         events := if ok then s.events + [s.hand.value] else s.events,
         writeFailures := if ok then s.writeFailures else s.writeFailures + 1)
    case DrainEnd => s.(flusher := if s.flusher.last then Exited else Waiting)
    case CancelContext => s.(cancelled := true)
    case CloseChannel =>
      s.(closer := ChannelClosed, closing := Some(Closing(|s.channel|, s.cancelled, |s.handed|, |s.events|)))
    case CloseSignal => s.(closer := Signalled)
    case CloseReturn => s.(closer := Returned)
  }

  function After(cfg: Config, s: State, steps: seq<Step>): State {
    if steps == [] then s else Apply(cfg, After(cfg, s, steps[..|steps| - 1]), steps[|steps| - 1])
  }

  predicate IsRun(cfg: Config, s: State, steps: seq<Step>) {
    steps == [] ||
      (&& IsRun(cfg, s, steps[..|steps| - 1])
       && Enabled(cfg, After(cfg, s, steps[..|steps| - 1]), steps[|steps| - 1]))
  }

  // ---------------------------------------------------------------------------------------
  // Conservation and order
  // ---------------------------------------------------------------------------------------

  /** The rows among `rows` whose `AppendEvent` call succeeded. */
  function Appended(rows: seq<Row>, oks: seq<bool>): (kept: seq<Row>)
    requires |rows| == |oks|
    ensures |kept| <= |rows|
  {
    if rows == [] then []
    else Appended(rows[..|rows| - 1], oks[..|oks| - 1]) + (if oks[|oks| - 1] then [rows[|rows| - 1]] else [])
  }

  function InHand(s: State): seq<Row> {
    if s.hand.Some? then [s.hand.value] else []
  }

  ghost predicate Conserved(cfg: Config, s: State) {
    && |s.channel| <= cfg.capacity
    && (s.closing.Some? ==> s.closing.value.buffered <= cfg.capacity)
    && s.accepted == s.handed + InHand(s) + s.channel
    && s.attempted == s.lost + multiset(s.accepted) + s.pending
    && s.total == |s.attempted| && s.dropped == |s.lost|
    && |s.handed| == |s.oks| && s.events == Appended(s.handed, s.oks)
    && s.writeFailures == |s.handed| - |s.events|
    && (s.hand.Some? ==> s.flusher.Draining?)
  }

  lemma AppendedNext(rows: seq<Row>, oks: seq<bool>, row: Row, ok: bool)
    requires |rows| == |oks|
    ensures Appended(rows + [row], oks + [ok]) == Appended(rows, oks) + (if ok then [row] else [])
  {
    assert (rows + [row])[..|rows|] == rows && (oks + [ok])[..|oks|] == oks;
  }

  lemma AppendedPrefix(rows: seq<Row>, oks: seq<bool>, i: nat)
    requires i < |rows| && i < |oks|
    ensures Appended(rows[..i + 1], oks[..i + 1]) == Appended(rows[..i], oks[..i]) + (if oks[i] then [rows[i]] else [])
  {
    assert rows[..i + 1] == rows[..i] + [rows[i]] && oks[..i + 1] == oks[..i] + [oks[i]];
    AppendedNext(rows[..i], oks[..i], rows[i], oks[i]);
  }

  lemma CountConserves(cfg: Config, s: State, row: Row)
    requires Conserved(cfg, s) && Enabled(cfg, s, CountAttempt(row))
    ensures Conserved(cfg, Apply(cfg, s, CountAttempt(row)))
  {
  }

  lemma SendConserves(cfg: Config, s: State, row: Row)
    requires Conserved(cfg, s) && Enabled(cfg, s, Send(row))
    ensures Conserved(cfg, Apply(cfg, s, Send(row)))
  {
    assert s.accepted + [row] == s.handed + InHand(s) + (s.channel + [row]);
    assert s.attempted == s.lost + (multiset(s.accepted) + multiset{row}) + (s.pending - multiset{row});
    assert multiset(s.accepted + [row]) == multiset(s.accepted) + multiset{row};
  }

  lemma DropConserves(cfg: Config, s: State, row: Row)
    requires Conserved(cfg, s) && Enabled(cfg, s, Drop(row))
    ensures Conserved(cfg, Apply(cfg, s, Drop(row)))
  {
    assert s.attempted == (s.lost + multiset{row}) + multiset(s.accepted) + (s.pending - multiset{row});
  }

  lemma TakeConserves(cfg: Config, s: State)
    requires Conserved(cfg, s) && Enabled(cfg, s, Take)
    ensures Conserved(cfg, Apply(cfg, s, Take))
  {
    assert s.handed + [] + s.channel == s.handed + [s.channel[0]] + s.channel[1..];
  }

  lemma FlushConserves(cfg: Config, s: State, ok: bool)
    requires Conserved(cfg, s) && Enabled(cfg, s, Flush(ok))
    ensures Conserved(cfg, Apply(cfg, s, Flush(ok)))
  {
    AppendedNext(s.handed, s.oks, s.hand.value, ok);
    assert s.handed + InHand(s) + s.channel == (s.handed + [s.hand.value]) + [] + s.channel;
  }

  lemma StepConserves(cfg: Config, s: State, step: Step)
    requires Conserved(cfg, s) && Enabled(cfg, s, step)
    ensures Conserved(cfg, Apply(cfg, s, step))
  {
    match step
    case CountAttempt(row) => CountConserves(cfg, s, row);
    case Send(row) => SendConserves(cfg, s, row);
    case Drop(row) => DropConserves(cfg, s, row);
    case Take => TakeConserves(cfg, s);
    case Flush(ok) => FlushConserves(cfg, s, ok);
    case _ =>
  }

  lemma {:induction false} RunConserves(cfg: Config, steps: seq<Step>)
    requires IsRun(cfg, INITIAL, steps)
    ensures Conserved(cfg, After(cfg, INITIAL, steps))
  {
    if steps != [] {
      RunConserves(cfg, steps[..|steps| - 1]);
      StepConserves(cfg, After(cfg, INITIAL, steps[..|steps| - 1]), steps[|steps| - 1]);
    }
  }

  /**
   In every reachable state each attempt counted is accounted for exactly once, by row and by
   number, and the channel is within its capacity.
   */
  lemma AttemptsAccounted(cfg: Config, steps: seq<Step>)
    requires IsRun(cfg, INITIAL, steps)
    ensures var s := After(cfg, INITIAL, steps);
      && |s.channel| <= cfg.capacity
      && s.attempted == s.lost + multiset(s.handed) + multiset(InHand(s)) + multiset(s.channel) + s.pending
      && s.total == s.dropped + |s.events| + s.writeFailures + |s.channel| + |InHand(s)| + |s.pending|
  {
    RunConserves(cfg, steps);
    var s := After(cfg, INITIAL, steps);
    assert multiset(s.accepted) == multiset(s.handed) + multiset(InHand(s)) + multiset(s.channel);
    assert |multiset(s.accepted)| == |s.accepted|;
  }

  /** Rows reach the store in the order the channel accepted them, and none is skipped or repeated. */
  lemma HandedInOrder(cfg: Config, steps: seq<Step>)
    requires IsRun(cfg, INITIAL, steps)
    ensures var s := After(cfg, INITIAL, steps);
      s.handed <= s.accepted && |s.oks| == |s.handed| && s.events == Appended(s.accepted[..|s.handed|], s.oks)
  {
    RunConserves(cfg, steps);
    var s := After(cfg, INITIAL, steps);
    assert s.accepted[..|s.handed|] == s.handed;
  }

  lemma DropNeedsFull(cfg: Config, s: State, step: Step)
    requires |s.channel| < cfg.capacity
    ensures Apply(cfg, s, step).dropped == s.dropped
  {
  }

  /** A run in which the channel never fills drops nothing. */
  lemma {:induction false} NothingDroppedBelowCapacity(cfg: Config, steps: seq<Step>)
    requires IsRun(cfg, INITIAL, steps)
    requires forall prefix :: prefix < steps ==> |After(cfg, INITIAL, prefix).channel| < cfg.capacity
    ensures After(cfg, INITIAL, steps).dropped == 0
  {
    if steps != [] {
      var before := steps[..|steps| - 1];
      assert before < steps;
      NothingDroppedBelowCapacity(cfg, before);
      DropNeedsFull(cfg, After(cfg, INITIAL, before), steps[|steps| - 1]);
    }
  }

  // ---------------------------------------------------------------------------------------
  // What Close leaves behind
  // ---------------------------------------------------------------------------------------

  function Excess(n: nat, batch: nat): nat { if n <= batch then 0 else n - batch }

  /** How much of the `n` rows buffered at the close can still be waiting, by where the flusher is. */
  predicate Shrinking(cfg: Config, s: State, n: nat) {
    match s.flusher
    case Waiting => |s.channel| <= n
    case Draining(taken, false) => |s.channel| <= n
    case Draining(taken, true) => taken + |InHand(s)| + |s.channel| <= n
    case Exited => |s.channel| <= Excess(n, cfg.batch)
  }

  /** Since the close the table has grown by at most one row for each row handed over. */
  predicate GrownSince(s: State, c: Closing) {
    c.handed <= |s.handed| && c.inTable <= |s.events| && |s.events| - c.inTable <= |s.handed| - c.handed
  }

  /** Before an orderly close the flusher cannot be on its way out. */
  predicate Orderly(cfg: Config, s: State) {
    && (s.closer.Open? <==> s.closing.None?)
    && (s.closer.Open? && !s.cancelled ==>
          s.flusher.Waiting? || (s.flusher.Draining? && !s.flusher.last))
    && (s.hand.Some? ==> s.flusher.Draining?)
    && (!s.closer.Open? ==> s.pending == multiset{})
    && (s.closing.Some? && !s.closing.value.cancelled ==> Shrinking(cfg, s, s.closing.value.buffered))
    && (s.closing.Some? ==> |s.channel| <= s.closing.value.buffered)
    && (s.closer.Returned? ==> s.flusher.Exited?)
    && (s.closing.Some? ==> GrownSince(s, s.closing.value))
  }

  lemma OrderlyStep(cfg: Config, s: State, step: Step)
    requires Orderly(cfg, s) && Enabled(cfg, s, step)
    ensures Orderly(cfg, Apply(cfg, s, step))
  {
  }

  lemma {:induction false} RunOrderly(cfg: Config, steps: seq<Step>)
    requires IsRun(cfg, INITIAL, steps)
    ensures Orderly(cfg, After(cfg, INITIAL, steps))
  {
    if steps != [] {
      RunOrderly(cfg, steps[..|steps| - 1]);
      OrderlyStep(cfg, After(cfg, INITIAL, steps[..|steps| - 1]), steps[|steps| - 1]);
    }
  }

  /** `Close` has returned; when it closed the channel `n` rows were buffered and the context was cancelled or not. */
  predicate ClosedWith(s: State, n: nat, cancelled: bool) {
    s.closer.Returned? && s.closing.Some? && s.closing.value.buffered == n && s.closing.value.cancelled == cancelled
  }

  /** How many of `n` buffered rows Close may leave: on a cancelled context the flusher may be gone already. */
  function MayLeave(cfg: Config, n: nat, cancelled: bool): nat {
    if cancelled then n else Excess(n, cfg.batch)
  }

  /** Of the rows accepted, at most those were never handed to the store. */
  lemma CloseLeavesAtMost(cfg: Config, steps: seq<Step>, n: nat, cancelled: bool)
    requires IsRun(cfg, INITIAL, steps) && ClosedWith(After(cfg, INITIAL, steps), n, cancelled)
    ensures var s := After(cfg, INITIAL, steps);
      && s.pending == multiset{} && s.hand.None?
      && |s.accepted| - |s.handed| == |s.channel| <= MayLeave(cfg, n, cancelled)
  {
    RunOrderly(cfg, steps);
    RunConserves(cfg, steps);
  }

  // The bound is met. On a live context the buffer fills to `n`, the channel closes, and one final batch
  // is all there is. On a cancelled one the flusher leaves first, and then the buffer fills.

  lemma Extend(cfg: Config, s: State, steps: seq<Step>, step: Step)
    requires IsRun(cfg, s, steps) && Enabled(cfg, After(cfg, s, steps), step)
    ensures IsRun(cfg, s, steps + [step])
    ensures After(cfg, s, steps + [step]) == Apply(cfg, After(cfg, s, steps), step)
  {
    assert (steps + [step])[..|steps|] == steps;
  }

  predicate Filled(s: State, n: nat, cancelled: bool) {
    && s.pending == multiset{} && |s.channel| == n && s.hand.None?
    && s.flusher == (if cancelled then Exited else Waiting) && s.cancelled == cancelled && s.closer.Open?
    && |s.accepted| == n && s.handed == [] && s.oks == [] && s.events == []
  }

  lemma FillOne(cfg: Config, s: State, n: nat, cancelled: bool, row: Row)
    requires Filled(s, n, cancelled) && n < cfg.capacity
    ensures Enabled(cfg, s, CountAttempt(row)) && Enabled(cfg, Apply(cfg, s, CountAttempt(row)), Send(row))
    ensures Filled(Apply(cfg, Apply(cfg, s, CountAttempt(row)), Send(row)), n + 1, cancelled)
  {
  }

  lemma {:induction false} FlusherLeaves(cfg: Config) returns (steps: seq<Step>)
    ensures IsRun(cfg, INITIAL, steps) && Filled(After(cfg, INITIAL, steps), 0, true)
  {
    Extend(cfg, INITIAL, [], CancelContext);
    assert [] + [CancelContext] == [CancelContext];
    Extend(cfg, INITIAL, [CancelContext], WakeOnCancel);
    Extend(cfg, INITIAL, [CancelContext] + [WakeOnCancel], DrainEnd);
    steps := [CancelContext] + [WakeOnCancel] + [DrainEnd];
  }

  lemma {:induction false} Fill(cfg: Config, n: nat, cancelled: bool, row: Row) returns (steps: seq<Step>)
    requires n <= cfg.capacity
    ensures IsRun(cfg, INITIAL, steps) && Filled(After(cfg, INITIAL, steps), n, cancelled)
  {
    steps := [];
    if cancelled {
      steps := FlusherLeaves(cfg);
    }
    for k := 0 to n
      invariant IsRun(cfg, INITIAL, steps) && Filled(After(cfg, INITIAL, steps), k, cancelled)
    {
      FillOne(cfg, After(cfg, INITIAL, steps), k, cancelled, row);
      Extend(cfg, INITIAL, steps, CountAttempt(row));
      Extend(cfg, INITIAL, steps + [CountAttempt(row)], Send(row));
      steps := steps + [CountAttempt(row)] + [Send(row)];
    }
  }

  /** The final drain of `n` rows after `taken` of them, every one written or every one failed. */
  predicate LastDrain(s: State, n: nat, taken: nat, ok: bool) {
    && s.flusher == Draining(taken, true) && s.hand.None? && taken <= n && |s.channel| == n - taken
    && s.closer.Signalled? && s.closing == Some(Closing(n, false, 0, 0)) && |s.accepted| == n
    && (forall k :: 0 <= k < |s.oks| ==> s.oks[k] == ok) && (!ok ==> s.events == [])
  }

  lemma CloseWakes(cfg: Config, s: State, n: nat, ok: bool)
    requires Filled(s, n, false)
    ensures var s1 := Apply(cfg, s, CloseChannel);
      var s2 := Apply(cfg, s1, CloseSignal);
      && Enabled(cfg, s, CloseChannel) && Enabled(cfg, s1, CloseSignal) && Enabled(cfg, s2, WakeOnClose)
      && LastDrain(Apply(cfg, s2, WakeOnClose), n, 0, ok)
  {
  }

  lemma DrainOneMore(cfg: Config, s: State, n: nat, taken: nat, ok: bool)
    requires LastDrain(s, n, taken, ok) && taken < n && taken < cfg.batch
    ensures Enabled(cfg, s, Take) && Enabled(cfg, Apply(cfg, s, Take), Flush(ok))
    ensures LastDrain(Apply(cfg, Apply(cfg, s, Take), Flush(ok)), n, taken + 1, ok)
  {
  }

  lemma {:induction false} DrainLastBatch(cfg: Config, n: nat, ok: bool, row: Row) returns (steps: seq<Step>)
    requires n <= cfg.capacity
    ensures IsRun(cfg, INITIAL, steps) && LastDrain(After(cfg, INITIAL, steps), n, n - Excess(n, cfg.batch), ok)
  {
    steps := Fill(cfg, n, false, row);
    CloseWakes(cfg, After(cfg, INITIAL, steps), n, ok);
    Extend(cfg, INITIAL, steps, CloseChannel);
    Extend(cfg, INITIAL, steps + [CloseChannel], CloseSignal);
    Extend(cfg, INITIAL, steps + [CloseChannel] + [CloseSignal], WakeOnClose);
    steps := steps + [CloseChannel] + [CloseSignal] + [WakeOnClose];
    for k := 0 to n - Excess(n, cfg.batch)
      invariant IsRun(cfg, INITIAL, steps) && LastDrain(After(cfg, INITIAL, steps), n, k, ok)
    {
      DrainOneMore(cfg, After(cfg, INITIAL, steps), n, k, ok);
      Extend(cfg, INITIAL, steps, Take);
      Extend(cfg, INITIAL, steps + [Take], Flush(ok));
      steps := steps + [Take] + [Flush(ok)];
    }
  }

  /** A `Close` that found `n` rows in flight, all of them buffered, and after which every write went the same way. */
  predicate ClosedAll(s: State, n: nat, cancelled: bool, ok: bool) {
    && ClosedWith(s, n, cancelled) && s.closing.value.handed == 0 && s.closing.value.inTable == 0 && |s.accepted| == n
    && (forall k :: 0 <= k < |s.oks| ==> s.oks[k] == ok) && (!ok ==> s.events == [])
  }

  lemma CloseFindsNobody(cfg: Config, s: State, n: nat, ok: bool)
    requires Filled(s, n, true)
    ensures var s1 := Apply(cfg, s, CloseChannel);
      var s2 := Apply(cfg, s1, CloseSignal);
      && Enabled(cfg, s, CloseChannel) && Enabled(cfg, s1, CloseSignal) && Enabled(cfg, s2, CloseReturn)
      && ClosedAll(Apply(cfg, s2, CloseReturn), n, true, ok) && |Apply(cfg, s2, CloseReturn).channel| == n
  {
  }

  lemma LastDrainEnds(cfg: Config, s: State, n: nat, ok: bool)
    requires LastDrain(s, n, n - Excess(n, cfg.batch), ok)
    ensures var s1 := Apply(cfg, s, DrainEnd);
      && Enabled(cfg, s, DrainEnd) && Enabled(cfg, s1, CloseReturn)
      && ClosedAll(Apply(cfg, s1, CloseReturn), n, false, ok)
      && |Apply(cfg, s1, CloseReturn).channel| == Excess(n, cfg.batch)
  {
  }

  /**
   For every number of buffered rows some run of Close leaves exactly as many as it may, whether the
   store takes every row it is handed or none.
   */
  lemma {:induction false} CloseLeavesAsMany(cfg: Config, n: nat, cancelled: bool, ok: bool, row: Row)
    returns (steps: seq<Step>)
    requires n <= cfg.capacity
    ensures IsRun(cfg, INITIAL, steps) && ClosedAll(After(cfg, INITIAL, steps), n, cancelled, ok)
    ensures |After(cfg, INITIAL, steps).channel| == MayLeave(cfg, n, cancelled)
  {
    if cancelled {
      steps := Fill(cfg, n, true, row);
      CloseFindsNobody(cfg, After(cfg, INITIAL, steps), n, ok);
      Extend(cfg, INITIAL, steps, CloseChannel);
      Extend(cfg, INITIAL, steps + [CloseChannel], CloseSignal);
      Extend(cfg, INITIAL, steps + [CloseChannel] + [CloseSignal], CloseReturn);
      steps := steps + [CloseChannel] + [CloseSignal] + [CloseReturn];
    } else {
      steps := DrainLastBatch(cfg, n, ok, row);
      LastDrainEnds(cfg, After(cfg, INITIAL, steps), n, ok);
      Extend(cfg, INITIAL, steps, DrainEnd);
      Extend(cfg, INITIAL, steps + [DrainEnd], CloseReturn);
      steps := steps + [DrainEnd] + [CloseReturn];
    }
  }

  /** On every schedule `Close` hands everything that was buffered to the store. */
  ghost predicate HandsOverAll(cfg: Config, n: nat, cancelled: bool) {
    forall steps :: IsRun(cfg, INITIAL, steps) && ClosedWith(After(cfg, INITIAL, steps), n, cancelled) ==>
      After(cfg, INITIAL, steps).channel == []
  }

  /** It does so exactly when nothing was buffered, or the context was alive and no more than one batch was. */
  lemma CloseHandsOverAllIff(cfg: Config, n: nat, cancelled: bool)
    requires n <= cfg.capacity
    ensures HandsOverAll(cfg, n, cancelled) <==> n == 0 || (!cancelled && n <= cfg.batch)
  {
    if n == 0 || (!cancelled && n <= cfg.batch) {
      forall steps | IsRun(cfg, INITIAL, steps) && ClosedWith(After(cfg, INITIAL, steps), n, cancelled)
        ensures After(cfg, INITIAL, steps).channel == []
      {
        CloseLeavesAtMost(cfg, steps, n, cancelled);
      }
    } else {
      var steps := CloseLeavesAsMany(cfg, n, cancelled, true, Row("", "", "", 0));
      assert After(cfg, INITIAL, steps).channel != [];
    }
  }

  // ---------------------------------------------------------------------------------------
  // What Close leaves out of the events table
  // ---------------------------------------------------------------------------------------

  /** Every `AppendEvent` call succeeded. */
  predicate NoFailure(s: State) { forall k :: 0 <= k < |s.oks| ==> s.oks[k] }

  lemma {:induction false} AppendedAll(rows: seq<Row>, oks: seq<bool>)
    requires |rows| == |oks| && forall k :: 0 <= k < |oks| ==> oks[k]
    ensures Appended(rows, oks) == rows
  {
    if rows != [] {
      AppendedAll(rows[..|rows| - 1], oks[..|oks| - 1]);
    }
  }

  lemma HandedIsWritten(cfg: Config, s: State)
    requires Conserved(cfg, s) && NoFailure(s) && s.hand.None?
    ensures s.accepted == s.events + s.channel
  {
    AppendedAll(s.handed, s.oks);
    assert s.handed + InHand(s) == s.handed;
  }

  /** With a store that never fails, the rows missing from the table are those left in the channel. */
  lemma TableWithoutFailure(cfg: Config, steps: seq<Step>, n: nat, cancelled: bool)
    requires IsRun(cfg, INITIAL, steps) && ClosedWith(After(cfg, INITIAL, steps), n, cancelled)
    requires NoFailure(After(cfg, INITIAL, steps))
    ensures var s := After(cfg, INITIAL, steps); s.accepted == s.events + s.channel
  {
    CloseLeavesAtMost(cfg, steps, n, cancelled);
    RunConserves(cfg, steps);
    HandedIsWritten(cfg, After(cfg, INITIAL, steps));
  }

  /** On every schedule on which no write fails, the table holds every row accepted once `Close` returns. */
  ghost predicate WritesAll(cfg: Config, n: nat, cancelled: bool) {
    forall steps :: IsRun(cfg, INITIAL, steps) && ClosedWith(After(cfg, INITIAL, steps), n, cancelled) ==>
      NoFailure(After(cfg, INITIAL, steps)) ==> After(cfg, INITIAL, steps).events == After(cfg, INITIAL, steps).accepted
  }

  /**
   That is so exactly when nothing was buffered, or the context was alive and no more than one batch
   was. The documentation promises it always, and the daemon calls `Close` after cancelling the context.
   */
  lemma CloseWritesAllIff(cfg: Config, n: nat, cancelled: bool)
    requires n <= cfg.capacity
    ensures WritesAll(cfg, n, cancelled) <==> n == 0 || (!cancelled && n <= cfg.batch)
  {
    if n == 0 || (!cancelled && n <= cfg.batch) {
      forall steps | IsRun(cfg, INITIAL, steps) && ClosedWith(After(cfg, INITIAL, steps), n, cancelled)
        ensures var s := After(cfg, INITIAL, steps); NoFailure(s) ==> s.events == s.accepted
      {
        CloseLeavesAtMost(cfg, steps, n, cancelled);
        if NoFailure(After(cfg, INITIAL, steps)) {
          TableWithoutFailure(cfg, steps, n, cancelled);
        }
      }
    } else {
      var steps := CloseLeavesAsMany(cfg, n, cancelled, true, Row("", "", "", 0));
      TableWithoutFailure(cfg, steps, n, cancelled);
      assert NoFailure(After(cfg, INITIAL, steps));
    }
  }

  /** `Close` has returned, and when it closed the channel `n` rows were buffered or in the flusher's hand. */
  predicate ClosedInFlight(s: State, n: nat, cancelled: bool) {
    && s.closer.Returned? && s.closing.Some? && s.closing.value.cancelled == cancelled
    && |s.accepted| - s.closing.value.handed == n
  }

  /** Since the close exactly the rows then in flight have come into the table. */
  predicate Landed(s: State)
    requires s.closing.Some?
  {
    && s.closing.value.inTable <= |s.events| && s.closing.value.handed <= |s.accepted|
    && s.events[s.closing.value.inTable..] == s.accepted[s.closing.value.handed..]
  }

  /** On every schedule, with writes that may fail, the rows in flight at the close come into the table. */
  ghost predicate LandsAll(cfg: Config, n: nat, cancelled: bool) {
    forall steps :: IsRun(cfg, INITIAL, steps) && ClosedInFlight(After(cfg, INITIAL, steps), n, cancelled) ==>
      Landed(After(cfg, INITIAL, steps))
  }

  /** With writes that may fail that is sure exactly when nothing is in flight: a failed row is not tried again. */
  lemma CloseLandsAllIff(cfg: Config, n: nat, cancelled: bool)
    requires n <= cfg.capacity
    ensures LandsAll(cfg, n, cancelled) <==> n == 0
  {
    if n == 0 {
      forall steps | IsRun(cfg, INITIAL, steps) && ClosedInFlight(After(cfg, INITIAL, steps), n, cancelled)
        ensures Landed(After(cfg, INITIAL, steps))
      {
        RunOrderly(cfg, steps);
        RunConserves(cfg, steps);
      }
    } else {
      var steps := CloseLeavesAsMany(cfg, n, cancelled, false, Row("", "", "", 0));
      var s := After(cfg, INITIAL, steps);
      assert ClosedInFlight(s, n, cancelled) && |s.events[0..]| != |s.accepted[0..]|;
    }
  }

  /**
   The store honours its context: each write uses a context derived from the flusher's, so after the
   cancellation no write succeeds.
   */
  predicate HonoursContext(cfg: Config, steps: seq<Step>) {
    steps == [] ||
      (&& HonoursContext(cfg, steps[..|steps| - 1])
       && !(steps[|steps| - 1] == Flush(true) && After(cfg, INITIAL, steps[..|steps| - 1]).cancelled))
  }

  /** The table is as it was when `Close` found the context cancelled. */
  predicate TableStands(s: State) {
    s.closing.Some? && s.closing.value.cancelled ==> s.cancelled && |s.events| == s.closing.value.inTable
  }

  lemma TableStandsStep(cfg: Config, s: State, step: Step)
    requires TableStands(s) && !(step == Flush(true) && s.cancelled)
    ensures TableStands(Apply(cfg, s, step))
  {
  }

  lemma {:induction false} NothingAfterCancel(cfg: Config, steps: seq<Step>)
    requires HonoursContext(cfg, steps)
    ensures TableStands(After(cfg, INITIAL, steps))
  {
    if steps != [] {
      NothingAfterCancel(cfg, steps[..|steps| - 1]);
      TableStandsStep(cfg, After(cfg, INITIAL, steps[..|steps| - 1]), steps[|steps| - 1]);
    }
  }

  lemma NothingLanded(cfg: Config, s: State, n: nat, cancelled: bool)
    requires Conserved(cfg, s) && ClosedInFlight(s, n, cancelled)
    requires GrownSince(s, s.closing.value) && |s.events| == s.closing.value.inTable
    ensures Landed(s) <==> n == 0
  {
    assert |s.accepted[s.closing.value.handed..]| == n;
    assert s.events[s.closing.value.inTable..] == [];
  }

  /**
   So when the context was cancelled first, as the daemon does, the final drain writes nothing: on every
   schedule every row in flight at the close is missing from the table.
   */
  lemma CancelledCloseWritesNothing(cfg: Config, steps: seq<Step>, n: nat)
    requires IsRun(cfg, INITIAL, steps) && HonoursContext(cfg, steps)
    requires ClosedInFlight(After(cfg, INITIAL, steps), n, true)
    ensures var s := After(cfg, INITIAL, steps);
      |s.events| == s.closing.value.inTable && (Landed(s) <==> n == 0)
  {
    NothingAfterCancel(cfg, steps);
    RunOrderly(cfg, steps);
    RunConserves(cfg, steps);
    NothingLanded(cfg, After(cfg, INITIAL, steps), n, true);
  }

  /**
   With the production sizes and a store that never fails, the table can miss a full buffer of 4096
   accepted rows once Close returns, or 3096 on a live context, and never more.
   */
  lemma {:induction false} FullBufferAtClose(cancelled: bool, row: Row) returns (steps: seq<Step>)
    ensures IsRun(PRODUCTION, INITIAL, steps) && ClosedWith(After(PRODUCTION, INITIAL, steps), 4096, cancelled)
    ensures var s := After(PRODUCTION, INITIAL, steps);
      NoFailure(s) && |s.accepted| - |s.events| == if cancelled then 4096 else 3096
    ensures forall other, n ::
      IsRun(PRODUCTION, INITIAL, other) && ClosedWith(After(PRODUCTION, INITIAL, other), n, cancelled) ==>
        var s := After(PRODUCTION, INITIAL, other);
        NoFailure(s) ==> |s.accepted| - |s.events| <= if cancelled then 4096 else 3096
  {
    steps := CloseLeavesAsMany(PRODUCTION, 4096, cancelled, true, row);
    TableWithoutFailure(PRODUCTION, steps, 4096, cancelled);
    forall other, n | IsRun(PRODUCTION, INITIAL, other) && ClosedWith(After(PRODUCTION, INITIAL, other), n, cancelled)
      ensures var s := After(PRODUCTION, INITIAL, other);
        NoFailure(s) ==> |s.accepted| - |s.events| <= if cancelled then 4096 else 3096
    {
      CloseLeavesAtMost(PRODUCTION, other, n, cancelled);
      RunConserves(PRODUCTION, other);
      if NoFailure(After(PRODUCTION, INITIAL, other)) {
        TableWithoutFailure(PRODUCTION, other, n, cancelled);
      }
    }
  }

  // ---------------------------------------------------------------------------------------
  // The handler-side emit and one drain, run without interruption
  // ---------------------------------------------------------------------------------------

  function Min(a: nat, b: nat): nat { if a <= b then a else b }

  /** The channel after one undisturbed drain, and the channel after `k` of them. */
  function DrainOnce(cfg: Config, channel: seq<Row>): seq<Row> {
    channel[Min(cfg.batch, |channel|)..]
  }

  function Drains(cfg: Config, channel: seq<Row>, k: nat): seq<Row> {
    if k == 0 then channel else DrainOnce(cfg, Drains(cfg, channel, k - 1))
  }

  lemma {:induction false} DrainsRemaining(cfg: Config, channel: seq<Row>, k: nat)
    ensures |Drains(cfg, channel, k)| == Excess(|channel|, k * cfg.batch)
  {
    if k > 0 {
      DrainsRemaining(cfg, channel, k - 1);
      assert k * cfg.batch == (k - 1) * cfg.batch + cfg.batch;
    }
  }

  function CeilDiv(n: nat, d: nat): nat
    requires d > 0
  {
    (n + d - 1) / d
  }

  lemma CeilDivIsLeast(n: nat, d: nat, k: nat)
    requires d > 0
    ensures k * d >= n <==> k >= CeilDiv(n, d)
  {
    var c := CeilDiv(n, d);
    assert c * d <= n + d - 1 < c * d + d;
    if k >= c {
      assert k * d >= c * d;
    } else {
      assert k * d <= (c - 1) * d == c * d - d;
    }
  }

  /** A backlog nobody adds to is empty after `k` drains exactly when `k` reaches the ceiling of rows over batch. */
  lemma BacklogEmptiesIn(cfg: Config, channel: seq<Row>, k: nat)
    requires cfg.batch > 0
    ensures Drains(cfg, channel, k) == [] <==> k >= CeilDiv(|channel|, cfg.batch)
  {
    DrainsRemaining(cfg, channel, k);
    CeilDivIsLeast(|channel|, cfg.batch, k);
  }

  function DrainSteps(oks: seq<bool>, k: nat): seq<Step>
    requires k <= |oks|
  {
    if k == 0 then [] else DrainSteps(oks, k - 1) + [Take] + [Flush(oks[k - 1])]
  }

  /** `s'` is `s` after its first `k` rows were drained with the given results. */
  predicate DrainedBy(s: State, s': State, oks: seq<bool>, k: nat)
    requires k <= |oks| && k <= |s.channel|
  {
    && s.flusher.Draining? && s'.flusher == s.flusher.(taken := s.flusher.taken + k)
    && s'.channel == s.channel[k..] && s'.hand.None?
    && s'.events == s.events + Appended(s.channel[..k], oks[..k])
    && s'.writeFailures == s.writeFailures + k - |Appended(s.channel[..k], oks[..k])|
  }

  lemma DrainedByOneMore(cfg: Config, s: State, s': State, oks: seq<bool>, k: nat)
    requires k < |oks| && k < |s.channel| && DrainedBy(s, s', oks, k) && s'.flusher.taken < cfg.batch
    ensures Enabled(cfg, s', Take) && Enabled(cfg, Apply(cfg, s', Take), Flush(oks[k]))
    ensures DrainedBy(s, Apply(cfg, Apply(cfg, s', Take), Flush(oks[k])), oks, k + 1)
  {
    AppendedPrefix(s.channel, oks, k);
  }

  lemma ExtendTwice(cfg: Config, s: State, steps: seq<Step>, a: Step, b: Step)
    requires IsRun(cfg, s, steps) && Enabled(cfg, After(cfg, s, steps), a)
    requires Enabled(cfg, Apply(cfg, After(cfg, s, steps), a), b)
    ensures IsRun(cfg, s, steps + [a] + [b])
    ensures After(cfg, s, steps + [a] + [b]) == Apply(cfg, Apply(cfg, After(cfg, s, steps), a), b)
  {
    Extend(cfg, s, steps, a);
    Extend(cfg, s, steps + [a], b);
  }

  lemma {:induction false} DrainStepsDrain(cfg: Config, s: State, oks: seq<bool>, k: nat)
    requires s.flusher.Draining? && s.flusher.taken == 0 && s.hand.None?
    requires k <= |oks| && k <= |s.channel| && k <= cfg.batch
    ensures IsRun(cfg, s, DrainSteps(oks, k)) && DrainedBy(s, After(cfg, s, DrainSteps(oks, k)), oks, k)
  {
    if k > 0 {
      DrainStepsDrain(cfg, s, oks, k - 1);
      var steps := DrainSteps(oks, k - 1);
      DrainedByOneMore(cfg, s, After(cfg, s, steps), oks, k - 1);
      ExtendTwice(cfg, s, steps, Take, Flush(oks[k - 1]));
    }
  }

  lemma DrainsBatch(cfg: Config, s: State, oks: seq<bool>)
    requires s.flusher.Draining? && s.flusher.taken == 0 && s.hand.None? && |oks| >= cfg.batch
    ensures var k := Min(cfg.batch, |s.channel|);
      var s' := After(cfg, s, DrainSteps(oks, k));
      && IsRun(cfg, s, DrainSteps(oks, k)) && Enabled(cfg, s', DrainEnd)
      && s'.flusher.Draining? && s'.flusher.last == s.flusher.last
      && s'.channel == DrainOnce(cfg, s.channel)
      && s'.events == s.events + Appended(s.channel[..k], oks[..k])
      && s'.writeFailures == s.writeFailures + k - |Appended(s.channel[..k], oks[..k])|
  {
    DrainStepsDrain(cfg, s, oks, Min(cfg.batch, |s.channel|));
  }

  predicate IsWake(step: Step) { step.Tick? || step.WakeOnClose? || step.WakeOnCancel? }

  /**
   One wake-up that nothing interferes with has the effect of the `DrainFlusher` method below; after it the
   flusher waits for the next tick, or has returned if it was woken by the close or the cancelled context.
   */
  lemma UndisturbedDrain(cfg: Config, s: State, wake: Step, oks: seq<bool>)
    requires s.flusher.Waiting? && s.hand.None? && |oks| >= cfg.batch && IsWake(wake) && Enabled(cfg, s, wake)
    ensures var k := Min(cfg.batch, |s.channel|);
      var s' := Apply(cfg, After(cfg, Apply(cfg, s, wake), DrainSteps(oks, k)), DrainEnd);
      && IsRun(cfg, Apply(cfg, s, wake), DrainSteps(oks, k))
      && s'.flusher == (if wake.Tick? then Waiting else Exited)
      && s'.channel == s.channel[k..]
      && s'.events == s.events + Appended(s.channel[..k], oks[..k])
      && s'.writeFailures == s.writeFailures + k - |Appended(s.channel[..k], oks[..k])|
  {
    DrainsBatch(cfg, Apply(cfg, s, wake), oks);
  }

  /** An attempt that nothing interferes with has the effect of the `EmitFailedLogin` method below. */
  lemma UndisturbedEmit(cfg: Config, s: State, row: Row)
    requires s.closer.Open?
    ensures var counted, full := Apply(cfg, s, CountAttempt(row)), |s.channel| >= cfg.capacity;
      var s' := Apply(cfg, counted, if full then Drop(row) else Send(row));
      && s'.total == s.total + 1 && s'.pending == s.pending && s'.events == s.events
      && s'.channel == (if full then s.channel else s.channel + [row])
      && s'.dropped == (if full then s.dropped + 1 else s.dropped)
      && !Enabled(cfg, counted, if full then Send(row) else Drop(row))
  {
    assert s.pending + multiset{row} - multiset{row} == s.pending;
  }

  class Auditor {
    const cfg: Config
    var failedCh: seq<Row>
    var failedLoginTotal: nat
    var failedLoginDropped: nat
    var auditWriteFailures: nat
    var events: seq<Row>

    constructor (cfg: Config)
      ensures this.cfg == cfg && failedCh == [] && events == []
      ensures failedLoginTotal == failedLoginDropped == auditWriteFailures == 0
    {
      this.cfg := cfg;
      failedCh, events := [], [];
      failedLoginTotal, failedLoginDropped, auditWriteFailures := 0, 0, 0;
    }

    method EmitFailedLogin(row: Row)
      modifies this`failedCh, this`failedLoginTotal, this`failedLoginDropped
      ensures failedLoginTotal == old(failedLoginTotal) + 1
      ensures if old(|failedCh|) < cfg.capacity
        then failedCh == old(failedCh) + [row] && failedLoginDropped == old(failedLoginDropped)
        else failedCh == old(failedCh) && failedLoginDropped == old(failedLoginDropped) + 1
    {
      failedLoginTotal := failedLoginTotal + 1;
      if |failedCh| < cfg.capacity {
        failedCh := failedCh + [row];
      } else {
        failedLoginDropped := failedLoginDropped + 1;
      }
    }

    method FlushOne(row: Row, ok: bool)
      modifies this`events, this`auditWriteFailures
      ensures events == old(events) + (if ok then [row] else [])
      ensures auditWriteFailures == old(auditWriteFailures) + (if ok then 0 else 1)
    {
      if ok {
        events := events + [row];
      } else {
        auditWriteFailures := auditWriteFailures + 1;
      }
    }

    /** `oks[i]` says whether the i-th `AppendEvent` of this drain succeeds. */
    method DrainFlusher(oks: seq<bool>)
      requires |oks| >= cfg.batch
      modifies this`failedCh, this`events, this`auditWriteFailures
      ensures failedCh == DrainOnce(cfg, old(failedCh))
      ensures var k := Min(cfg.batch, |old(failedCh)|);
        && events == old(events) + Appended(old(failedCh)[..k], oks[..k])
        && auditWriteFailures == old(auditWriteFailures) + k - |Appended(old(failedCh)[..k], oks[..k])|
    {
      ghost var was := failedCh;
      for i := 0 to cfg.batch
        invariant i <= |was| && failedCh == was[i..]
        invariant events == old(events) + Appended(was[..i], oks[..i])
        invariant auditWriteFailures == old(auditWriteFailures) + i - |Appended(was[..i], oks[..i])|
      {
        if failedCh == [] {
          return;
        }
        var row := failedCh[0];
        failedCh := failedCh[1..];
        FlushOne(row, oks[i]);
        AppendedPrefix(was, oks, i);
      }
    }
  }
}
