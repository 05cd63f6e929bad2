/**
 Alert rules: creation, partial update and deletion, with an audit event for each. A handler reads the
 rule it works on, checks the request against what it read, writes, and emits; other requests may come
 in between any two of these. The first half is that protocol as a transition system, the second half
 the handlers run one at a time.
 */
module AlertRules {

  import opened Options

  // ---------------------------------------------------------------------------------------
  // Rules and requests
  // ---------------------------------------------------------------------------------------

  const METRICS := {
    "error_rate_pct", "latency_p50_ms", "latency_p95_ms", "latency_p99_ms", "cold_start_pct", "request_count",
    FAILED_INVOCATIONS}
  const FAILED_INVOCATIONS := "failed_invocations"
  const COMPARISONS := {"gt", "gte", "lt", "lte"}
  const WINDOWS := {"5m", "15m", "1h", "6h", "24h", "7d", "15d"}
  const FAILURE_SOURCES := {"any", "cron", "queue", "delayed_task", "async_invoke"}
  const COOLDOWN_MIN := 5
  const COOLDOWN_MAX := 1440
  const COOLDOWN_DEFAULT := 15
  const SECRET_MAX_BYTES := 256

  datatype Threshold = Finite(value: real) | NotFinite

  datatype Rule = Rule(
    account: string, app: string, name: string, enabled: bool, metric: string, comparison: string,
    threshold: Threshold, window: string, failureSource: string, url: string, cooldown: int)

  /** A creation request; `secret` is the length of the webhook secret in bytes. */
  datatype NewRule = NewRule(
    name: string, enabled: Option<bool>, metric: string, comparison: string, threshold: Threshold,
    window: string, failureSource: string, url: string, secret: nat, cooldown: Option<int>)

  /** The fields of a partial update that were sent; also the `old` and `new` sides of its audit event. */
  datatype Patch = Patch(
    name: Option<string>, enabled: Option<bool>, metric: Option<string>, comparison: Option<string>,
    threshold: Option<Threshold>, window: Option<string>, url: Option<string>, cooldown: Option<int>,
    secretRotated: bool)

  function Or<T>(o: Option<T>, otherwise: T): T { if o.Some? then o.value else otherwise }

  /** White space as Unicode has it. */
  predicate IsSpace(c: char) {
    || 0x09 <= c as int <= 0x0d || 0x2000 <= c as int <= 0x200a
    || c as int in {0x20, 0x85, 0xa0, 0x1680, 0x2028, 0x2029, 0x202f, 0x205f, 0x3000}
  }

  function Trim(s: string): string {
    if s != "" && IsSpace(s[0]) then Trim(s[1..])
    else if s != "" && IsSpace(s[|s| - 1]) then Trim(s[..|s| - 1])
    else s
  }

  /** The partition a rule may not cross: rules on failed invocations name a failure source, others do not. */
  predicate CountsFailures(metric: string) { metric == FAILED_INVOCATIONS }

  predicate HttpUrl(url: string) { "https://" <= url || "http://" <= url }

  /** What must be true of every stored rule. */
  predicate Sound(r: Rule) {
    && Trim(r.name) != ""
    && r.metric in METRICS && r.comparison in COMPARISONS && r.window in WINDOWS
    && (r.failureSource != "" ==> r.failureSource in FAILURE_SOURCES)
    && (CountsFailures(r.metric) <==> r.failureSource != "")
    && r.threshold.Finite?
    && COOLDOWN_MIN <= r.cooldown <= COOLDOWN_MAX
    && HttpUrl(r.url)
  }

  predicate ValidBody(req: NewRule) {
    && req.metric in METRICS && req.comparison in COMPARISONS && req.window in WINDOWS
    && (req.failureSource == "" || req.failureSource in FAILURE_SOURCES)
    && req.threshold.Finite?
    && (req.cooldown.Some? ==> COOLDOWN_MIN <= req.cooldown.value <= COOLDOWN_MAX)
    && 0 < req.secret <= SECRET_MAX_BYTES
    && HttpUrl(req.url)
  }

  predicate ValidFamily(req: NewRule) {
    if CountsFailures(req.metric) then req.failureSource != "" else req.failureSource == ""
  }

  predicate ValidRow(merged: Rule) {
    && Trim(merged.name) != ""
    && merged.metric in METRICS && merged.comparison in COMPARISONS && merged.window in WINDOWS
    && (merged.failureSource == "" || merged.failureSource in FAILURE_SOURCES)
    && merged.threshold.Finite?
    && COOLDOWN_MIN <= merged.cooldown <= COOLDOWN_MAX
    && HttpUrl(merged.url)
  }

  function NewRow(account: string, app: string, req: NewRule): Rule {
    Rule(account, app, Trim(req.name), Or(req.enabled, true), req.metric, req.comparison, req.threshold,
         req.window, req.failureSource, req.url, Or(req.cooldown, COOLDOWN_DEFAULT))
  }

  /** A row with the sent fields replaced. */
  function Patched(r: Rule, p: Patch): Rule {
    r.(name := Or(p.name, r.name), enabled := Or(p.enabled, r.enabled), metric := Or(p.metric, r.metric),
       comparison := Or(p.comparison, r.comparison), threshold := Or(p.threshold, r.threshold),
       window := Or(p.window, r.window), url := Or(p.url, r.url), cooldown := Or(p.cooldown, r.cooldown))
  }

  /** What a rotation sends to the store besides the new sealed secret. */
  const NO_CHANGE := Patch(None, None, None, None, None, None, None, None, false)

  function Pick<T>(sent: Option<T>, value: T): Option<T> { if sent.Some? then Some(value) else None }

  /** The values a row has in the fields that were sent. */
  function Sent(r: Rule, p: Patch): Patch {
    Patch(Pick(p.name, r.name), Pick(p.enabled, r.enabled), Pick(p.metric, r.metric),
          Pick(p.comparison, r.comparison), Pick(p.threshold, r.threshold), Pick(p.window, r.window),
          Pick(p.url, r.url), Pick(p.cooldown, r.cooldown), p.secretRotated)
  }

  predicate KeepsFamily(row: Rule, p: Patch) {
    p.metric.Some? ==> CountsFailures(p.metric.value) == CountsFailures(row.metric)
  }

  // ---------------------------------------------------------------------------------------
  // The audit log
  // ---------------------------------------------------------------------------------------

  datatype Event =
    | Created(id: nat, rule: Rule)
    | Updated(id: nat, was: Patch, now: Patch)
    | Deleted(id: nat, name: string)
    | SecretRotated(id: nat)

  function Replayed(rules: map<nat, Rule>, e: Event): map<nat, Rule> {
    match e
    case Created(id, rule) => rules[id := rule]
    case Updated(id, _, now) => if id in rules then rules[id := Patched(rules[id], now)] else rules
    case Deleted(id, _) => rules - {id}
    case SecretRotated(_) => rules
  }

  /** What a reader of audit events makes of them. */
  function Replay(events: seq<Event>): map<nat, Rule> {
    if events == [] then map[]
    else Replayed(Replay(events[..|events| - 1]), events[|events| - 1])
  }

  // ---------------------------------------------------------------------------------------
  // The protocol
  // ---------------------------------------------------------------------------------------

  /** A request in flight: it has read the rule and passed its checks, or has written and is to emit. */
  datatype Slot =
    | Idle
    | Updating(id: nat, row: Rule, patch: Patch)
    | Deleting(id: nat, row: Rule)
    | Rotating(id: nat)
    | Emitting(event: Event)

  /** `writes` lists the events in the order the store was written, `log` in the order they were emitted. */
  datatype State = State(rules: map<nat, Rule>, nextId: nat, slots: seq<Slot>, log: seq<Event>, writes: seq<Event>)

  /** `accepted`: plan, quota, name clash, address lookup and sealing all went well. */
  datatype Step =
    | Insert(slot: nat, account: string, app: string, req: NewRule, accepted: bool)
    | LoadForUpdate(slot: nat, account: string, target: nat, patch: Patch, accepted: bool)
    | LoadForDelete(slot: nat, account: string, target: nat)
    | LoadForRotate(slot: nat, account: string, target: nat)
    | Write(slot: nat)
    | Remove(slot: nat)
    | Reseal(slot: nat)
    | Emit(slot: nat)
    | GiveUp(slot: nat)

  predicate Enabled(s: State, step: Step) {
    step.slot < |s.slots| &&
    match step
    case Insert(i, _, _, _, _) => s.slots[i].Idle?
    case LoadForUpdate(i, _, _, _, _) => s.slots[i].Idle?
    case LoadForDelete(i, _, _) => s.slots[i].Idle?
    case LoadForRotate(i, _, _) => s.slots[i].Idle?
    case Write(i) => s.slots[i].Updating?
    case Remove(i) => s.slots[i].Deleting?
    case Reseal(i) => s.slots[i].Rotating?
    case Emit(i) => s.slots[i].Emitting?
    case GiveUp(i) => s.slots[i].Updating? || s.slots[i].Deleting? || s.slots[i].Rotating?
  }

  function Store(s: State, i: nat, rules: map<nat, Rule>, nextId: nat, e: Event): State
    requires i < |s.slots|
  {
    State(rules, nextId, s.slots[i := Emitting(e)], s.log, s.writes + [e])
  }

  predicate MayInsert(req: NewRule, accepted: bool) {
    Trim(req.name) != "" && ValidBody(req) && ValidFamily(req) && accepted
  }

  predicate MayUpdate(row: Rule, account: string, patch: Patch, accepted: bool) {
    row.account == account && ValidRow(Patched(row, patch)) && KeepsFamily(row, patch) && accepted
  }

  function Apply(s: State, step: Step): (t: State)
    ensures |t.slots| == |s.slots|
  {
    if !Enabled(s, step) then s else
    match step
    case Insert(i, account, app, req, accepted) =>
      if MayInsert(req, accepted) then
        var row := NewRow(account, app, req);
        Store(s, i, s.rules[s.nextId := row], s.nextId + 1, Created(s.nextId, row))
      else s
    case LoadForUpdate(i, account, id, patch, accepted) =>
      if id in s.rules && MayUpdate(s.rules[id], account, patch, accepted)
      then s.(slots := s.slots[i := Updating(id, s.rules[id], patch)])
      else s
    case LoadForDelete(i, account, id) =>
      if id in s.rules && s.rules[id].account == account
      then s.(slots := s.slots[i := Deleting(id, s.rules[id])])
      else s
    case LoadForRotate(i, account, id) =>
      if id in s.rules && s.rules[id].account == account
      then s.(slots := s.slots[i := Rotating(id)])
      else s
    case Write(i) =>
      var u := s.slots[i];
      if u.id in s.rules then
        var row := Patched(s.rules[u.id], u.patch);
        Store(s, i, s.rules[u.id := row], s.nextId, Updated(u.id, Sent(u.row, u.patch), Sent(row, u.patch)))
      else s.(slots := s.slots[i := Idle])
    case Remove(i) =>
      var d := s.slots[i];
      if d.id in s.rules
      then Store(s, i, s.rules - {d.id}, s.nextId, Deleted(d.id, d.row.name))
      else s.(slots := s.slots[i := Idle])
    case Reseal(i) =>
      var r := s.slots[i];
      if r.id in s.rules
      then Store(s, i, s.rules[r.id := Patched(s.rules[r.id], NO_CHANGE)], s.nextId, SecretRotated(r.id))
      else s.(slots := s.slots[i := Idle])
    case Emit(i) => s.(slots := s.slots[i := Idle], log := s.log + [s.slots[i].event])
    case GiveUp(i) => s.(slots := s.slots[i := Idle])
  }

  function Idles(n: nat): (slots: seq<Slot>)
    ensures |slots| == n && forall i :: 0 <= i < n ==> slots[i] == Idle
  {
    seq(n, _ => Idle)
  }

  function Start(n: nat): State { State(map[], 0, Idles(n), [], []) }

  function After(n: nat, steps: seq<Step>): (s: State)
    ensures |s.slots| == n
  {
    if steps == [] then Start(n) else Apply(After(n, steps[..|steps| - 1]), steps[|steps| - 1])
  }

  // ---------------------------------------------------------------------------------------
  // Every stored rule is sound
  // ---------------------------------------------------------------------------------------

  /** What never changes in a rule: its owner, its app, its failure source and its side of the partition. */
  predicate SameKind(r: Rule, q: Rule) {
    && r.account == q.account && r.app == q.app && r.failureSource == q.failureSource
    && CountsFailures(r.metric) == CountsFailures(q.metric)
  }

  predicate SlotInv(s: State, slot: Slot) {
    slot.Updating? ==>
      && Sound(slot.row) && ValidRow(Patched(slot.row, slot.patch)) && KeepsFamily(slot.row, slot.patch)
      && slot.id < s.nextId
      && (slot.id in s.rules ==> SameKind(s.rules[slot.id], slot.row))
  }

  predicate Inv(s: State) {
    && (forall id :: id in s.rules ==> id < s.nextId && Sound(s.rules[id]))
    && (forall i :: 0 <= i < |s.slots| ==> SlotInv(s, s.slots[i]))
  }

  lemma {:induction false} TrimTwice(s: string)
    ensures Trim(Trim(s)) == Trim(s)
    decreases |s|
  {
    if s != "" && IsSpace(s[0]) {
      TrimTwice(s[1..]);
    } else if s != "" && IsSpace(s[|s| - 1]) {
      TrimTwice(s[..|s| - 1]);
    }
  }

  predicate Trimmed(s: string) { Trim(s) == s }

  predicate Spaces(s: string) { forall k :: 0 <= k < |s| ==> IsSpace(s[k]) }

  predicate NoSpaceAround(s: string) { s == "" || (!IsSpace(s[0]) && !IsSpace(s[|s| - 1])) }

  /** Trimming takes the white space at both ends off and nothing else. */
  lemma {:induction false} TrimIs(lead: string, core: string, tail: string)
    requires Spaces(lead) && Spaces(tail) && NoSpaceAround(core)
    ensures Trim(lead + core + tail) == core
    decreases |lead| + |tail|, |tail|
  {
    var s := lead + core + tail;
    if lead != "" {
      assert s[1..] == lead[1..] + core + tail;
      TrimIs(lead[1..], core, tail);
    } else if core == "" {
      if tail != "" {
        assert s == tail + core + "";
        TrimIs(tail, core, "");
      }
    } else if tail != "" {
      assert s[..|s| - 1] == lead + core + tail[..|tail| - 1];
      TrimIs(lead, core, tail[..|tail| - 1]);
    } else {
      assert s == core;
    }
  }

  /** An accepted creation makes a sound rule with a trimmed name, by default enabled and cooling down 15 minutes. */
  lemma NewRowSound(account: string, app: string, req: NewRule, accepted: bool)
    requires MayInsert(req, accepted)
    ensures Sound(NewRow(account, app, req)) && Trimmed(NewRow(account, app, req).name)
    ensures req.enabled.None? ==> NewRow(account, app, req).enabled
    ensures req.cooldown.None? ==> NewRow(account, app, req).cooldown == 15
  {
    TrimTwice(req.name);
  }

  /** A creation is let through exactly when the row it would store is sound and the secret is of a right length. */
  lemma MayInsertIff(account: string, app: string, req: NewRule, accepted: bool)
    ensures MayInsert(req, accepted) <==> accepted && 0 < req.secret <= 256 && Sound(NewRow(account, app, req))
  {
    TrimTwice(req.name);
  }

  /** An update of a sound row is let through exactly when the row it would store is sound. */
  lemma MayUpdateIff(row: Rule, account: string, patch: Patch, accepted: bool)
    requires Sound(row)
    ensures MayUpdate(row, account, patch, accepted) <==>
      row.account == account && accepted && Sound(Patched(row, patch))
  {
    assert KeepsFamily(row, patch) <==> CountsFailures(Patched(row, patch).metric) == CountsFailures(row.metric);
  }

  /** The creation step stores, under the next id, what the request says. */
  lemma InsertStores(s: State, step: Step)
    requires step.Insert? && Enabled(s, step) && MayInsert(step.req, step.accepted)
    ensures var t := Apply(s, step);
      && t.rules.Keys == s.rules.Keys + {s.nextId} && t.nextId == s.nextId + 1
      && (forall id :: id in s.rules && id != s.nextId ==> t.rules[id] == s.rules[id])
      && t.writes == s.writes + [Created(s.nextId, t.rules[s.nextId])]
    ensures var r, req := Apply(s, step).rules[s.nextId], step.req;
      && r.account == step.account && r.app == step.app && r.name == Trim(req.name)
      && r.enabled == (req.enabled != Some(false))
      && r.metric == req.metric && r.comparison == req.comparison && r.threshold == req.threshold
      && r.window == req.window && r.failureSource == req.failureSource && r.url == req.url
      && r.cooldown == (if req.cooldown.Some? then req.cooldown.value else 15)
  {
    var row := NewRow(step.account, step.app, step.req);
    assert Apply(s, step).rules == s.rules[s.nextId := row];
  }

  /**
   The update step gives each field sent its new value and leaves the others as the write finds them; its
   event has the fields sent, with the values the request read and the values it sent.
   */
  lemma WriteStores(s: State, i: nat)
    requires i < |s.slots| && s.slots[i].Updating? && s.slots[i].id in s.rules
    ensures var t, u := Apply(s, Write(i)), s.slots[i];
      && t.rules.Keys == s.rules.Keys && t.nextId == s.nextId
      && (forall id :: id in s.rules && id != u.id ==> t.rules[id] == s.rules[id])
      && t.writes == s.writes + [Updated(u.id, Sent(u.row, u.patch), u.patch)]
    ensures var r, q, p := Apply(s, Write(i)).rules[s.slots[i].id], s.rules[s.slots[i].id], s.slots[i].patch;
      && r.account == q.account && r.app == q.app && r.failureSource == q.failureSource
      && r.name == (if p.name.Some? then p.name.value else q.name)
      && r.enabled == (if p.enabled.Some? then p.enabled.value else q.enabled)
      && r.metric == (if p.metric.Some? then p.metric.value else q.metric)
      && r.comparison == (if p.comparison.Some? then p.comparison.value else q.comparison)
      && r.threshold == (if p.threshold.Some? then p.threshold.value else q.threshold)
      && r.window == (if p.window.Some? then p.window.value else q.window)
      && r.url == (if p.url.Some? then p.url.value else q.url)
      && r.cooldown == (if p.cooldown.Some? then p.cooldown.value else q.cooldown)
  {
    var u := s.slots[i];
    var row := Patched(s.rules[u.id], u.patch);
    assert Apply(s, Write(i)).rules == s.rules[u.id := row];
    assert Sent(row, u.patch) == u.patch;
  }

  /** A patch checked against one state of a rule is sound on any other state of the same kind. */
  lemma PatchedSound(row: Rule, current: Rule, patch: Patch)
    requires ValidRow(Patched(row, patch)) && KeepsFamily(row, patch) && Sound(current) && SameKind(current, row)
    ensures Sound(Patched(current, patch)) && SameKind(Patched(current, patch), row)
  {
    var checked, written := Patched(row, patch), Patched(current, patch);
    assert written.name == checked.name || written.name == current.name;
    assert written.metric == checked.metric || written.metric == current.metric;
  }

  lemma InsertKeepsInv(s: State, step: Step)
    requires Inv(s) && step.Insert? && Enabled(s, step)
    ensures Inv(Apply(s, step))
  {
    if MayInsert(step.req, step.accepted) {
      NewRowSound(step.account, step.app, step.req, step.accepted);
    }
  }

  lemma WriteKeepsInv(s: State, step: Step)
    requires Inv(s) && step.Write? && Enabled(s, step)
    ensures Inv(Apply(s, step))
  {
    var u, t := s.slots[step.slot], Apply(s, step);
    if u.id in s.rules {
      PatchedSound(u.row, s.rules[u.id], u.patch);
      forall i | 0 <= i < |s.slots| ensures SlotInv(t, t.slots[i]) {
        assert SlotInv(s, s.slots[i]);
      }
    }
  }

  /** A step that gives no rule a new value and leaves an unsuspicious slot. */
  lemma QuietKeepsInv(s: State, t: State, i: nat)
    requires Inv(s) && i < |s.slots| == |t.slots| && t.slots == s.slots[i := t.slots[i]] && t.nextId == s.nextId
    requires forall id :: id in t.rules ==> id in s.rules && t.rules[id] == s.rules[id]
    requires SlotInv(s, t.slots[i])
    ensures Inv(t)
  {
    forall j | 0 <= j < |s.slots| ensures SlotInv(t, t.slots[j]) {
      assert SlotInv(s, if j == i then t.slots[i] else s.slots[j]);
    }
  }

  lemma InvStep(s: State, step: Step)
    requires Inv(s)
    ensures Inv(Apply(s, step))
  {
    if Enabled(s, step) && Apply(s, step) != s {
      match step
      case Insert(_, _, _, _, _) => InsertKeepsInv(s, step);
      case Write(_) => WriteKeepsInv(s, step);
      case _ => QuietKeepsInv(s, Apply(s, step), step.slot);
    }
  }

  /** After any run, whatever was interleaved, every stored rule is sound. */
  lemma {:induction false} RunSound(n: nat, steps: seq<Step>)
    ensures Inv(After(n, steps))
  {
    if steps != [] {
      RunSound(n, steps[..|steps| - 1]);
      InvStep(After(n, steps[..|steps| - 1]), steps[|steps| - 1]);
    }
  }

  /** An id comes into use once, and a rule keeps its kind for as long as it lives. */
  lemma KindStep(s: State, step: Step, id: nat)
    requires Inv(s) && id < s.nextId && id in Apply(s, step).rules
    ensures id in s.rules && SameKind(Apply(s, step).rules[id], s.rules[id])
    ensures id < Apply(s, step).nextId
  {
    if Enabled(s, step) && step.Write? && s.slots[step.slot].id == id {
      var u := s.slots[step.slot];
      PatchedSound(u.row, s.rules[id], u.patch);
    }
  }

  lemma {:induction false} IdsGrow(n: nat, before: seq<Step>, steps: seq<Step>)
    requires before <= steps
    ensures After(n, before).nextId <= After(n, steps).nextId
  {
    if before != steps {
      assert before <= steps[..|steps| - 1];
      IdsGrow(n, before, steps[..|steps| - 1]);
    }
  }

  lemma {:induction false} KindFixed(n: nat, before: seq<Step>, steps: seq<Step>, id: nat)
    requires before <= steps && id < After(n, before).nextId && id in After(n, steps).rules
    ensures id < After(n, steps).nextId
    ensures id in After(n, before).rules && SameKind(After(n, steps).rules[id], After(n, before).rules[id])
  {
    RunSound(n, steps);
    if before != steps {
      var rest, last := steps[..|steps| - 1], steps[|steps| - 1];
      assert before <= rest;
      RunSound(n, rest);
      IdsGrow(n, before, rest);
      KindStep(After(n, rest), last, id);
      KindFixed(n, before, rest, id);
    }
  }

  // ---------------------------------------------------------------------------------------
  // The audit events tell the whole story
  // ---------------------------------------------------------------------------------------

  /** The new side of an update event does what the request did, to any row. */
  lemma NewSideReplays(r: Rule, q: Rule, p: Patch)
    ensures Patched(r, Sent(Patched(q, p), p)) == Patched(r, p)
  {
  }

  function Holds(slot: Slot, e: Event): nat { if slot == Emitting(e) then 1 else 0 }

  /** How many slots have written `e` and not emitted it yet. */
  function Pending(slots: seq<Slot>, e: Event): nat {
    if slots == [] then 0 else Pending(slots[..|slots| - 1], e) + Holds(slots[|slots| - 1], e)
  }

  lemma {:induction false} PendingSet(slots: seq<Slot>, i: nat, slot: Slot, e: Event)
    requires i < |slots|
    ensures Pending(slots[i := slot], e) + Holds(slots[i], e) == Pending(slots, e) + Holds(slot, e)
  {
    var k := |slots| - 1;
    if i == k {
      assert slots[i := slot][..k] == slots[..k];
    } else {
      assert slots[i := slot][..k] == slots[..k][i := slot];
      PendingSet(slots[..k], i, slot, e);
    }
  }

  lemma {:induction false} PendingNone(n: nat, e: Event)
    ensures Pending(Idles(n), e) == 0
  {
    if n > 0 {
      assert Idles(n)[..n - 1] == Idles(n - 1);
      PendingNone(n - 1, e);
    }
  }

  /** Each event is in the log or in flight as often as it was written. */
  predicate Accounted(s: State, e: Event) { multiset(s.log)[e] + Pending(s.slots, e) == multiset(s.writes)[e] }

  /** A step changes one slot: silently, to hold the event of a write, or to let that event out to the log. */
  predicate OneSlot(s: State, t: State, i: nat) {
    i < |s.slots| == |t.slots| && t.slots == s.slots[i := t.slots[i]] &&
    if s.slots[i].Emitting? then
      t.slots[i].Idle? && t.log == s.log + [s.slots[i].event] && t.writes == s.writes
    else
      t.log == s.log && t.writes == if t.slots[i].Emitting? then s.writes + [t.slots[i].event] else s.writes
  }

  lemma StepOneSlot(s: State, step: Step)
    ensures Apply(s, step) == s || OneSlot(s, Apply(s, step), step.slot)
  {
  }

  lemma AccountedOneSlot(s: State, t: State, i: nat, e: Event)
    requires Accounted(s, e) && OneSlot(s, t, i)
    ensures Accounted(t, e)
  {
    PendingSet(s.slots, i, t.slots[i], e);
  }

  lemma AccountedStep(s: State, step: Step, e: Event)
    requires Accounted(s, e)
    ensures Accounted(Apply(s, step), e)
  {
    StepOneSlot(s, step);
    if Apply(s, step) != s {
      AccountedOneSlot(s, Apply(s, step), step.slot, e);
    }
  }

  lemma ReplayAppend(events: seq<Event>, e: Event)
    ensures Replay(events + [e]) == Replayed(Replay(events), e)
  {
    assert (events + [e])[..|events|] == events;
  }

  lemma ReplayStep(s: State, step: Step)
    requires Replay(s.writes) == s.rules
    ensures Replay(Apply(s, step).writes) == Apply(s, step).rules
  {
    var t := Apply(s, step);
    if t.writes != s.writes {
      var e := t.writes[|s.writes|];
      ReplayAppend(s.writes, e);
      if step.Write? {
        var u := s.slots[step.slot];
        NewSideReplays(s.rules[u.id], s.rules[u.id], u.patch);
      }
      assert t.writes == s.writes + [e] && t.rules == Replayed(s.rules, e);
    }
  }

  /** In every run the events, in the order of the writes, replay to exactly the stored rules. */
  lemma {:induction false} WritesTellAll(n: nat, steps: seq<Step>)
    ensures Replay(After(n, steps).writes) == After(n, steps).rules
  {
    if steps != [] {
      WritesTellAll(n, steps[..|steps| - 1]);
      ReplayStep(After(n, steps[..|steps| - 1]), steps[|steps| - 1]);
    }
  }

  /** The log holds exactly those events but for the ones in flight. */
  lemma {:induction false} LogComplete(n: nat, steps: seq<Step>, e: Event)
    ensures Accounted(After(n, steps), e)
  {
    if steps == [] {
      PendingNone(n, e);
    } else {
      LogComplete(n, steps[..|steps| - 1], e);
      AccountedStep(After(n, steps[..|steps| - 1]), steps[|steps| - 1], e);
    }
  }

  // ---------------------------------------------------------------------------------------
  // The log in the order it was emitted
  // ---------------------------------------------------------------------------------------

  /** The events of one rule, in order. */
  function Of(events: seq<Event>, id: nat): seq<Event> {
    if events == [] then []
    else
      var rest := Of(events[..|events| - 1], id);
      if events[|events| - 1].id == id then rest + [events[|events| - 1]] else rest
  }

  /** What the events of one rule make of it. */
  function Life(events: seq<Event>): Option<Rule> {
    if events == [] then None
    else
      var before := Life(events[..|events| - 1]);
      match events[|events| - 1]
      case Created(_, rule) => Some(rule)
      case Updated(_, _, now) => if before.Some? then Some(Patched(before.value, now)) else None
      case Deleted(_, _) => None
      case SecretRotated(_) => before
  }

  function At(rules: map<nat, Rule>, id: nat): Option<Rule> { if id in rules then Some(rules[id]) else None }

  lemma LifeAppend(events: seq<Event>, e: Event)
    ensures Life(events + [e]) ==
      match e
      case Created(_, rule) => Some(rule)
      case Updated(_, _, now) => if Life(events).Some? then Some(Patched(Life(events).value, now)) else None
      case Deleted(_, _) => None
      case SecretRotated(_) => Life(events)
  {
    assert (events + [e])[..|events|] == events;
  }

  /** Replaying treats each rule by itself. */
  lemma {:induction false} ReplayByRule(events: seq<Event>, id: nat)
    ensures At(Replay(events), id) == Life(Of(events, id))
  {
    if events != [] {
      var k := |events| - 1;
      ReplayByRule(events[..k], id);
      LifeAppend(Of(events[..k], id), events[k]);
    }
  }

  lemma SameAt(a: map<nat, Rule>, b: map<nat, Rule>)
    requires forall id :: At(a, id) == At(b, id)
    ensures a == b
  {
    forall id ensures id in a <==> id in b {
      assert At(a, id) == At(b, id);
    }
    forall id | id in a ensures a[id] == b[id] {
      assert At(a, id) == At(b, id);
    }
  }

  /** A log that has each rule's events in the order they were written replays to the rules. */
  lemma OrderedLogReplays(n: nat, steps: seq<Step>)
    requires forall id :: Of(After(n, steps).log, id) == Of(After(n, steps).writes, id)
    ensures Replay(After(n, steps).log) == After(n, steps).rules
  {
    var log, writes := After(n, steps).log, After(n, steps).writes;
    WritesTellAll(n, steps);
    forall id ensures At(Replay(log), id) == At(Replay(writes), id) {
      ReplayByRule(log, id);
      ReplayByRule(writes, id);
      assert Of(log, id) == Of(writes, id);
    }
    SameAt(Replay(log), Replay(writes));
  }

  predicate AllIdle(s: State) { forall i :: 0 <= i < |s.slots| ==> s.slots[i].Idle? }

  /** What a lone slot has written and not emitted. */
  function InFlight(s: State): seq<Event> {
    if |s.slots| == 1 && s.slots[0].Emitting? then [s.slots[0].event] else []
  }

  /** With one request at a time the log is what was written, but for an event in flight. */
  lemma {:induction false} LogAlone(n: nat, steps: seq<Step>)
    requires n <= 1
    ensures After(n, steps).writes == After(n, steps).log + InFlight(After(n, steps))
  {
    if steps != [] {
      var s := After(n, steps[..|steps| - 1]);
      LogAlone(n, steps[..|steps| - 1]);
      StepOneSlot(s, steps[|steps| - 1]);
    }
  }

  /** In every run that ends with nothing in flight the log, as emitted, replays to the rules. */
  ghost predicate LogReplays(n: nat) {
    forall steps :: AllIdle(After(n, steps)) ==> Replay(After(n, steps).log) == After(n, steps).rules
  }

  const SAMPLE := NewRule("s", None, "request_count", "gt", Finite(0.0), "5m", "", "http://h", 1, None)

  lemma SampleIsValid()
    ensures MayInsert(SAMPLE, true)
  {
    assert Trim("s") == "s";
    assert "http://h"[..7] == "http://";
  }

  // ---------------------------------------------------------------------------------------
  // Two renames of one rule
  // ---------------------------------------------------------------------------------------

  function Rename(name: string): Patch { NO_CHANGE.(name := Some(name)) }

  lemma Extend(n: nat, steps: seq<Step>, step: Step)
    ensures After(n, steps + [step]) == Apply(After(n, steps), step)
  {
    assert (steps + [step])[..|steps|] == steps;
  }

  /** The first two slots as given, the others idle. */
  function Pair(n: nat, first: Slot, second: Slot): seq<Slot>
    requires n >= 2
  {
    Idles(n)[0 := first][1 := second]
  }

  predicate OnlyRule(s: State, n: nat, rule: Rule)
    requires n >= 2
  {
    s.rules == map[0 := rule] && s.log == [Created(0, rule)] && s.slots == Idles(n)
  }

  lemma CreateThenEmit(n: nat, account: string, app: string, req: NewRule)
    requires n >= 2 && MayInsert(req, true)
    ensures OnlyRule(Apply(Apply(Start(n), Insert(0, account, app, req, true)), Emit(0)), n, NewRow(account, app, req))
  {
    var insert, rule := Insert(0, account, app, req, true), NewRow(account, app, req);
    var made := Created(0, rule);
    assert Apply(Start(n), insert) == State(map[0 := rule], 1, Idles(n)[0 := Emitting(made)], [], [made]);
    assert Idles(n)[0 := Emitting(made)][0 := Idle] == Idles(n);
  }

  lemma CreatedAndEmitted(n: nat, account: string, app: string, req: NewRule) returns (steps: seq<Step>)
    requires n >= 2 && MayInsert(req, true)
    ensures OnlyRule(After(n, steps), n, NewRow(account, app, req))
  {
    var insert := Insert(0, account, app, req, true);
    Extend(n, [], insert);
    assert [] + [insert] == [insert];
    Extend(n, [insert], Emit(0));
    CreateThenEmit(n, account, app, req);
    steps := [insert] + [Emit(0)];
  }

  /** Both renames have read the rule. */
  predicate BothLoaded(s: State, n: nat, rule: Rule, first: string, second: string)
    requires n >= 2
  {
    && s.rules == map[0 := rule] && s.log == [Created(0, rule)]
    && s.slots == Pair(n, Updating(0, rule, Rename(first)), Updating(0, rule, Rename(second)))
  }

  lemma LoadBoth(s: State, n: nat, rule: Rule, first: string, second: string)
    requires n >= 2 && OnlyRule(s, n, rule) && Sound(rule) && Trim(first) != "" && Trim(second) != ""
    ensures var one := LoadForUpdate(0, rule.account, 0, Rename(first), true);
      var two := LoadForUpdate(1, rule.account, 0, Rename(second), true);
      BothLoaded(Apply(Apply(s, one), two), n, rule, first, second)
  {
    assert MayUpdate(rule, rule.account, Rename(first), true) && MayUpdate(rule, rule.account, Rename(second), true);
  }

  lemma RenamesLoaded(n: nat, account: string, app: string, req: NewRule, first: string, second: string)
    returns (steps: seq<Step>)
    requires n >= 2 && MayInsert(req, true) && Trim(first) != "" && Trim(second) != ""
    ensures BothLoaded(After(n, steps), n, NewRow(account, app, req), first, second)
  {
    var created := CreatedAndEmitted(n, account, app, req);
    NewRowSound(account, app, req, true);
    var one := LoadForUpdate(0, account, 0, Rename(first), true);
    var two := LoadForUpdate(1, account, 0, Rename(second), true);
    Extend(n, created, one);
    Extend(n, created + [one], two);
    LoadBoth(After(n, created), n, NewRow(account, app, req), first, second);
    steps := created + [one] + [two];
  }

  /** The event of a rename that read `rule`. */
  function Renamed(rule: Rule, name: string): Event { Updated(0, Rename(rule.name), Rename(name)) }

  lemma FirstWritten(s: State, n: nat, rule: Rule, first: string, second: string)
    requires n >= 2 && BothLoaded(s, n, rule, first, second)
    ensures var t := Apply(s, Write(0));
      && t.rules == map[0 := Patched(rule, Rename(first))] && t.log == s.log
      && t.slots == Pair(n, Emitting(Renamed(rule, first)), Updating(0, rule, Rename(second)))
  {
    assert s.slots[0 := Emitting(Renamed(rule, first))] ==
           Pair(n, Emitting(Renamed(rule, first)), Updating(0, rule, Rename(second)));
    assert s.rules[0 := Patched(rule, Rename(first))] == map[0 := Patched(rule, Rename(first))];
  }

  lemma SecondWritten(s: State, n: nat, rule: Rule, first: string, second: string)
    requires n >= 2 && s.rules == map[0 := Patched(rule, Rename(first))]
    requires s.slots == Pair(n, Emitting(Renamed(rule, first)), Updating(0, rule, Rename(second)))
    ensures var t := Apply(s, Write(1));
      && t.rules == map[0 := Patched(rule, Rename(second))] && t.log == s.log
      && t.slots == Pair(n, Emitting(Renamed(rule, first)), Emitting(Renamed(rule, second)))
  {
    assert Patched(Patched(rule, Rename(first)), Rename(second)) == Patched(rule, Rename(second));
    assert s.rules[0 := Patched(rule, Rename(second))] == map[0 := Patched(rule, Rename(second))];
  }

  lemma EmittedOutOfTurn(s: State, n: nat, rule: Rule, first: string, second: string)
    requires n >= 2 && s.log == [Created(0, rule)]
    requires s.slots == Pair(n, Emitting(Renamed(rule, first)), Emitting(Renamed(rule, second)))
    ensures var t := Apply(Apply(s, Emit(1)), Emit(0));
      && t.rules == s.rules && AllIdle(t)
      && t.log == [Created(0, rule)] + [Renamed(rule, second)] + [Renamed(rule, first)]
  {
  }

  lemma ReplayedOutOfTurn(rule: Rule, first: string, second: string)
    ensures Replay([Created(0, rule)] + [Renamed(rule, second)] + [Renamed(rule, first)]) ==
      map[0 := Patched(rule, Rename(first))]
  {
    var made := Created(0, rule);
    ReplayAppend([], made);
    assert [] + [made] == [made];
    ReplayAppend([made], Renamed(rule, second));
    ReplayAppend([made] + [Renamed(rule, second)], Renamed(rule, first));
    assert Patched(Patched(rule, Rename(second)), Rename(first)) == Patched(rule, Rename(first));
  }

  /** Two renames may be emitted against the order they were written in; then the log tells the wrong name. */
  lemma EmissionOrderCanMislead(n: nat, account: string, app: string, req: NewRule, first: string, second: string)
    returns (steps: seq<Step>)
    requires n >= 2 && MayInsert(req, true) && Trim(first) != "" && Trim(second) != ""
    ensures var s := After(n, steps);
      && AllIdle(s) && 0 in s.rules && s.rules[0].name == second
      && 0 in Replay(s.log) && Replay(s.log)[0].name == first
  {
    var rule := NewRow(account, app, req);
    var loaded := RenamesLoaded(n, account, app, req, first, second);
    Extend(n, loaded, Write(0));
    FirstWritten(After(n, loaded), n, rule, first, second);
    Extend(n, loaded + [Write(0)], Write(1));
    SecondWritten(After(n, loaded + [Write(0)]), n, rule, first, second);
    var written := loaded + [Write(0)] + [Write(1)];
    Extend(n, written, Emit(1));
    Extend(n, written + [Emit(1)], Emit(0));
    EmittedOutOfTurn(After(n, written), n, rule, first, second);
    ReplayedOutOfTurn(rule, first, second);
    steps := written + [Emit(1)] + [Emit(0)];
  }

  /** That is so exactly for one request at a time. */
  lemma LogReplaysIff(n: nat)
    ensures LogReplays(n) <==> n <= 1
  {
    if n <= 1 {
      forall steps | AllIdle(After(n, steps)) ensures Replay(After(n, steps).log) == After(n, steps).rules {
        LogAlone(n, steps);
        assert InFlight(After(n, steps)) == [];
        assert After(n, steps).log + [] == After(n, steps).log;
        WritesTellAll(n, steps);
      }
    } else {
      SampleIsValid();
      var steps := EmissionOrderCanMislead(n, "a", "b", SAMPLE, "x", "y");
      assert Trim("x") == "x" && Trim("y") == "y";
      assert "x"[0] != "y"[0];
      assert Replay(After(n, steps).log)[0].name != After(n, steps).rules[0].name;
    }
  }

  // ---------------------------------------------------------------------------------------
  // The old side of an update event
  // ---------------------------------------------------------------------------------------

  predicate AboutToUpdate(s: State, i: nat) {
    i < |s.slots| && s.slots[i].Updating? && s.slots[i].id in s.rules
  }

  /** The event of the update that slot `i` is about to write takes the rule back to what the write found. */
  predicate OldSideUndoes(s: State, i: nat)
    requires AboutToUpdate(s, i)
  {
    var id, t := s.slots[i].id, Apply(s, Write(i));
    t.slots[i].Emitting? && t.slots[i].event.Updated? && id in t.rules &&
    Patched(t.rules[id], t.slots[i].event.was) == s.rules[id]
  }

  lemma UndoneIff(r: Rule, row: Rule, p: Patch)
    ensures Patched(Patched(r, p), Sent(row, p)) == r <==> Sent(row, p) == Sent(r, p)
  {
    var back := Patched(Patched(r, p), Sent(row, p));
    if back == r {
      assert p.name.Some? ==> row.name == back.name;
      assert p.threshold.Some? ==> row.threshold == back.threshold;
    }
  }

  /** It does so exactly when no field sent has changed since the request read the rule. */
  lemma OldSideUndoesIff(s: State, i: nat)
    requires AboutToUpdate(s, i)
    ensures var u := s.slots[i];
      OldSideUndoes(s, i) <==> Sent(u.row, u.patch) == Sent(s.rules[u.id], u.patch)
  {
    var u := s.slots[i];
    UndoneIff(s.rules[u.id], u.row, u.patch);
  }

  /** With one request at a time an update writes on the row it read. */
  lemma {:induction false} RowAlone(n: nat, steps: seq<Step>)
    requires n <= 1
    ensures var s := After(n, steps);
      AboutToUpdate(s, 0) ==> s.slots[0].row == s.rules[s.slots[0].id]
  {
    if steps != [] {
      RowAlone(n, steps[..|steps| - 1]);
    }
  }

  /** In every run every update event's old side undoes the update. */
  ghost predicate OldSidesUndo(n: nat) {
    forall steps, i :: AboutToUpdate(After(n, steps), i) ==> OldSideUndoes(After(n, steps), i)
  }

  /** The second of two renames that read the same row tells an old name that is not the one it replaced. */
  lemma StaleOldSide(n: nat, account: string, app: string, req: NewRule, first: string, second: string)
    returns (steps: seq<Step>)
    requires n >= 2 && MayInsert(req, true) && Trim(first) != "" && Trim(second) != "" && first != Trim(req.name)
    ensures AboutToUpdate(After(n, steps), 1) && !OldSideUndoes(After(n, steps), 1)
  {
    var rule := NewRow(account, app, req);
    var loaded := RenamesLoaded(n, account, app, req, first, second);
    Extend(n, loaded, Write(0));
    FirstWritten(After(n, loaded), n, rule, first, second);
    steps := loaded + [Write(0)];
    OldSideUndoesIff(After(n, steps), 1);
    assert Sent(rule, Rename(second)).name != Sent(Patched(rule, Rename(first)), Rename(second)).name;
  }

  /** That, too, is so exactly for one request at a time. */
  lemma OldSidesUndoIff(n: nat)
    ensures OldSidesUndo(n) <==> n <= 1
  {
    if n <= 1 {
      forall steps, i | AboutToUpdate(After(n, steps), i) ensures OldSideUndoes(After(n, steps), i) {
        RowAlone(n, steps);
        OldSideUndoesIff(After(n, steps), i);
      }
    } else {
      SampleIsValid();
      assert Trim("x") == "x" && Trim("y") == "y" && Trim("s") == "s";
      assert "x"[0] != "s"[0];
      var steps := StaleOldSide(n, "a", "b", SAMPLE, "x", "y");
    }
  }

  // ---------------------------------------------------------------------------------------
  // White space around names
  // ---------------------------------------------------------------------------------------

  /** The last name an update sent since the rule was created, if any. */
  function LastSent(events: seq<Event>): Option<string> {
    if events == [] then None
    else
      var e := events[|events| - 1];
      if e.Created? then None
      else if e.Updated? && e.now.name.Some? then e.now.name
      else LastSent(events[..|events| - 1])
  }

  predicate CreatedTrimmed(events: seq<Event>) {
    forall k :: 0 <= k < |events| && events[k].Created? ==> Trimmed(events[k].rule.name)
  }

  lemma {:induction false} LifeName(events: seq<Event>)
    requires CreatedTrimmed(events) && Life(events).Some?
    ensures if LastSent(events).Some?
      then Life(events).value.name == LastSent(events).value else Trimmed(Life(events).value.name)
  {
    var k := |events| - 1;
    if !events[k].Created? {
      LifeName(events[..k]);
    }
  }

  lemma {:induction false} OfTrimmed(events: seq<Event>, id: nat)
    requires CreatedTrimmed(events)
    ensures CreatedTrimmed(Of(events, id))
  {
    if events != [] {
      OfTrimmed(events[..|events| - 1], id);
    }
  }

  lemma WritesTrimmedStep(s: State, step: Step)
    requires CreatedTrimmed(s.writes)
    ensures CreatedTrimmed(Apply(s, step).writes)
  {
    if Enabled(s, step) && step.Insert? && MayInsert(step.req, step.accepted) {
      NewRowSound(step.account, step.app, step.req, step.accepted);
    }
  }

  lemma {:induction false} WritesTrimmed(n: nat, steps: seq<Step>)
    ensures CreatedTrimmed(After(n, steps).writes)
  {
    if steps != [] {
      WritesTrimmed(n, steps[..|steps| - 1]);
      WritesTrimmedStep(After(n, steps[..|steps| - 1]), steps[|steps| - 1]);
    }
  }

  /** In every run a stored name is trimmed exactly when the last name an update sent for the rule, if any, was. */
  lemma NameTrimmedIff(n: nat, steps: seq<Step>, id: nat)
    requires id in After(n, steps).rules
    ensures var last := LastSent(Of(After(n, steps).writes, id));
      Trimmed(After(n, steps).rules[id].name) <==> last.None? || Trimmed(last.value)
  {
    var writes := After(n, steps).writes;
    WritesTellAll(n, steps);
    ReplayByRule(writes, id);
    WritesTrimmed(n, steps);
    OfTrimmed(writes, id);
    LifeName(Of(writes, id));
  }

  /** A name with spaces around it, which a creation would have trimmed, is stored by an update. */
  lemma SpacedNameStored(n: nat, account: string, app: string, req: NewRule, name: string) returns (steps: seq<Step>)
    requires n >= 2 && MayInsert(req, true) && Trim(name) != "" && !Trimmed(name)
    ensures 0 in After(n, steps).rules && After(n, steps).rules[0].name == name
  {
    var loaded := RenamesLoaded(n, account, app, req, name, name);
    Extend(n, loaded, Write(0));
    FirstWritten(After(n, loaded), n, NewRow(account, app, req), name, name);
    steps := loaded + [Write(0)];
  }

  // ---------------------------------------------------------------------------------------
  // One request at a time
  // ---------------------------------------------------------------------------------------

  /** From `s` to `t` a request wrote the rules and emitted its event, or was turned away. */
  predicate Served(s: State, t: State, rules: map<nat, Rule>, event: Event, done: bool) {
    && t.slots == s.slots && t.nextId == s.nextId
    && t.rules == (if done then rules else s.rules)
    && t.log == (if done then s.log + [event] else s.log)
    && t.writes == (if done then s.writes + [event] else s.writes)
  }

  lemma WriteThenEmit(s: State, i: nat, id: nat, patch: Patch)
    requires id in s.rules && i < |s.slots| && s.slots[i] == Updating(id, s.rules[id], patch)
    ensures Served(s.(slots := s.slots[i := Idle]), Apply(Apply(s, Write(i)), Emit(i)),
                   s.rules[id := Patched(s.rules[id], patch)], Updated(id, Sent(s.rules[id], patch), patch), true)
  {
    var row := Patched(s.rules[id], patch);
    var event := Updated(id, Sent(s.rules[id], patch), patch);
    assert Sent(row, patch) == patch;
    assert Apply(s, Write(i)) == Store(s, i, s.rules[id := row], s.nextId, event);
    assert s.slots[i := Emitting(event)][i := Idle] == s.slots[i := Idle];
  }

  /** The steps of an update with nothing between them. */
  lemma UndisturbedUpdate(s: State, i: nat, account: string, id: nat, patch: Patch, accepted: bool)
    requires i < |s.slots| && s.slots[i].Idle? && Inv(s) && id in s.rules
    ensures var row := s.rules[id];
      var t := Apply(Apply(Apply(s, LoadForUpdate(i, account, id, patch, accepted)), Write(i)), Emit(i));
      Served(s, t, s.rules[id := Patched(row, patch)], Updated(id, Sent(row, patch), patch),
             row.account == account && accepted && Sound(Patched(row, patch)))
  {
    var row, load := s.rules[id], LoadForUpdate(i, account, id, patch, accepted);
    MayUpdateIff(row, account, patch, accepted);
    if MayUpdate(row, account, patch, accepted) {
      assert Apply(s, load) == s.(slots := s.slots[i := Updating(id, row, patch)]);
      WriteThenEmit(Apply(s, load), i, id, patch);
      assert s.slots[i := Updating(id, row, patch)][i := Idle] == s.slots;
    } else {
      assert Apply(s, load) == s;
    }
  }

  /** The steps of a deletion with nothing between them. */
  lemma UndisturbedDelete(s: State, i: nat, account: string, id: nat, row: Rule)
    requires i < |s.slots| && s.slots[i].Idle? && (id in s.rules ==> row == s.rules[id])
    ensures var t := Apply(Apply(Apply(s, LoadForDelete(i, account, id)), Remove(i)), Emit(i));
      Served(s, t, s.rules - {id}, Deleted(id, row.name), id in s.rules && row.account == account)
  {
    assert s.slots[i := Idle] == s.slots;
  }

  /** The steps of a rotation with nothing between them. */
  lemma UndisturbedRotate(s: State, i: nat, account: string, id: nat, row: Rule)
    requires i < |s.slots| && s.slots[i].Idle? && (id in s.rules ==> row == s.rules[id])
    ensures var t := Apply(Apply(Apply(s, LoadForRotate(i, account, id)), Reseal(i)), Emit(i));
      Served(s, t, s.rules, SecretRotated(id), id in s.rules && row.account == account)
  {
    assert s.slots[i := Idle] == s.slots;
  }

  datatype Outcome = Done(id: nat) | Invalid | NotFound | Refused

  class AlertDesk {
    var rules: map<nat, Rule>
    var nextId: nat
    var log: seq<Event>

    /** Every rule is sound, and the log alone is enough to rebuild them all. */
    ghost predicate Valid()
      reads this
    {
      && (forall id :: id in rules ==> id < nextId && Sound(rules[id]))
      && Replay(log) == rules
    }

    constructor ()
      ensures Valid() && rules == map[] && log == []
    {
      rules, nextId, log := map[], 0, [];
    }

    method CreateAlertRule(account: string, app: string, req: NewRule, accepted: bool) returns (r: Outcome)
      requires Valid()
      modifies this
      ensures Valid()
      ensures r.Done? <==> MayInsert(req, accepted)
      ensures r.Done? ==>
        && r.id !in old(rules) && rules == old(rules)[r.id := NewRow(account, app, req)]
        && log == old(log) + [Created(r.id, rules[r.id])]
      ensures r.Done? ==>
        && rules[r.id].account == account && rules[r.id].app == app && rules[r.id].name == Trim(req.name)
        && rules[r.id].enabled == (req.enabled != Some(false))
        && rules[r.id].metric == req.metric && rules[r.id].comparison == req.comparison
        && rules[r.id].threshold == req.threshold && rules[r.id].window == req.window
        && rules[r.id].failureSource == req.failureSource && rules[r.id].url == req.url
        && rules[r.id].cooldown == (if req.cooldown.Some? then req.cooldown.value else 15)
      ensures !r.Done? ==> rules == old(rules) && log == old(log)
    {
      var name := Trim(req.name);
      if name == "" {
        return Invalid;
      }
      if !ValidBody(req) {
        return Invalid;
      }
      if !ValidFamily(req) {
        return Invalid;
      }
      if !accepted {
        return Refused;
      }
      NewRowSound(account, app, req, accepted);
      var row := NewRow(account, app, req);
      ReplayAppend(log, Created(nextId, row));
      r := Done(nextId);
      rules := rules[nextId := row];
      log := log + [Created(nextId, row)];
      nextId := nextId + 1;
    }

    method UpdateAlertRule(account: string, id: nat, patch: Patch, accepted: bool) returns (r: Outcome)
      requires Valid()
      modifies this
      ensures Valid()
      ensures r.NotFound? <==> !(id in old(rules) && old(rules)[id].account == account)
      ensures r.Done? <==> id in old(rules) && MayUpdate(old(rules)[id], account, patch, accepted)
      ensures r.Done? ==>
        && r.id == id && id in rules && rules == old(rules)[id := Patched(old(rules)[id], patch)]
        && log == old(log) + [Updated(id, Sent(old(rules)[id], patch), Sent(rules[id], patch))]
        && SameKind(rules[id], old(rules)[id])
        && rules[id := Patched(rules[id], Sent(old(rules)[id], patch))] == old(rules)
      ensures !r.Done? ==> rules == old(rules) && log == old(log)
    {
      if id !in rules || rules[id].account != account {
        return NotFound;
      }
      var row := rules[id];
      if !ValidRow(Patched(row, patch)) {
        return Invalid;
      }
      if patch.metric.Some? && CountsFailures(patch.metric.value) != CountsFailures(row.metric) {
        return Invalid;
      }
      if !accepted {
        return Refused;
      }
      var updated := Patched(row, patch);
      PatchedSound(row, row, patch);
      NewSideReplays(row, row, patch);
      UndoneIff(row, row, patch);
      var event := Updated(id, Sent(row, patch), Sent(updated, patch));
      ReplayAppend(log, event);
      rules := rules[id := updated];
      log := log + [event];
      r := Done(id);
    }

    method DeleteAlertRule(account: string, id: nat) returns (r: Outcome)
      requires Valid()
      modifies this
      ensures Valid()
      ensures r == if id in old(rules) && old(rules)[id].account == account then Done(id) else NotFound
      ensures r.Done? ==> rules == old(rules) - {id} && log == old(log) + [Deleted(id, old(rules)[id].name)]
      ensures !r.Done? ==> rules == old(rules) && log == old(log)
    {
      if id !in rules || rules[id].account != account {
        return NotFound;
      }
      var event := Deleted(id, rules[id].name);
      ReplayAppend(log, event);
      rules := rules - {id};
      log := log + [event];
      r := Done(id);
    }

    method RotateAlertRuleSecret(account: string, id: nat, accepted: bool) returns (r: Outcome)
      requires Valid()
      modifies this
      ensures Valid() && rules == old(rules)
      ensures r.NotFound? <==> !(id in rules && rules[id].account == account)
      ensures r == Done(id) <==> id in rules && rules[id].account == account && accepted
      ensures log == if r.Done? then old(log) + [SecretRotated(id)] else old(log)
    {
      if id !in rules || rules[id].account != account {
        return NotFound;
      }
      if !accepted {
        return Refused;
      }
      ReplayAppend(log, SecretRotated(id));
      rules := rules[id := Patched(rules[id], NO_CHANGE)];
      log := log + [SecretRotated(id)];
      r := Done(id);
    }
  }
}
