/**
 Signing in through an identity provider: look up the link of the provider's subject, then its
 account, then an account with the e-mail address, then create one; and bind the subject to the
 account. Each is a store call of its own, and sign-ins and account removals interleave between them.
 E-mail addresses are taken as already trimmed and in lower case.
 */
module OAuthAccounts {

  import opened Options

  datatype Subject = Subject(provider: string, id: string)

  datatype Link = Link(account: nat, email: string, verified: bool)

  datatype SignIn = SignIn(subject: Subject, email: string, verified: bool)

  /**
   A sign-in: its number, the account its subject was linked to when it started, whether the store
   failed to look up that link or its account, and whether it failed to look up the address. The handler
   takes a failure for absence.
   */
  datatype Ticket = Ticket(number: nat, who: SignIn, seen: Option<nat>, faulted: bool, addressFaulted: bool)

  datatype Slot =
    | Idle
    | Linked(t: Ticket)
    | Unlinked(t: Ticket)
    | NoAccount(t: Ticket)
    | Chosen(t: Ticket, account: nat)

  /** `live` is the set of accounts at the time of the answer. */
  datatype Answer = Answer(t: Ticket, account: Option<nat>, live: set<nat>)

  /**
   `accounts` gives each account's e-mail address and `everCreated` also those of accounts removed since;
   `createdBy` gives the number of the sign-in that made each. Ids and numbers are handed out in order.
   */
  datatype Ledger = Ledger(
    accounts: map<nat, string>, everCreated: map<nat, string>, createdBy: map<nat, nat>,
    links: map<Subject, Link>, nextId: nat)

  datatype State = State(d: Ledger, nextNumber: nat, slots: seq<Slot>, answers: seq<Answer>)

  /**
   `failed` is a store call that returns an error. `FindByEmail` carries the store's reply, `Bind`
   whether the link was stored. `Remove` deletes an account, with or without its links.
   */
  datatype Step =
    | FindLink(slot: nat, who: SignIn, failed: bool)
    | FetchLinked(slot: nat, failed: bool)
    | FindByEmail(slot: nat, found: Option<nat>, failed: bool)
    | Create(slot: nat, failed: bool)
    | Bind(slot: nat, stored: bool)
    | Remove(account: nat, cascade: bool)

  predicate EmailTaken(accounts: map<nat, string>, email: string) {
    exists a :: a in accounts && accounts[a] == email
  }

  predicate Finds(accounts: map<nat, string>, email: string, found: Option<nat>) {
    if found.Some? then found.value in accounts && accounts[found.value] == email else !EmailTaken(accounts, email)
  }

  predicate Enabled(s: State, step: Step) {
    step.Remove? || (step.slot < |s.slots| &&
      match step
      case FindLink(i, _, _) => s.slots[i].Idle?
      case FetchLinked(i, _) => s.slots[i].Linked?
      case FindByEmail(i, found, failed) =>
        s.slots[i].Unlinked? && (failed || Finds(s.d.accounts, s.slots[i].t.who.email, found))
      case Create(i, _) => s.slots[i].NoAccount?
      case Bind(i, _) => s.slots[i].Chosen?)
  }

  function Seen(links: map<Subject, Link>, subject: Subject): Option<nat> {
    if subject in links then Some(links[subject].account) else None
  }

  /** A link is written for a subject that has none, or refreshed for the account it already names. */
  function Bound(links: map<Subject, Link>, who: SignIn, account: nat): map<Subject, Link> {
    if who.subject.provider == "" || who.subject.id == "" then links
    else if who.subject in links && links[who.subject].account != account then links
    else links[who.subject := Link(account, who.email, who.verified)]
  }

  function LinksOf(links: map<Subject, Link>, account: nat): set<Subject> {
    set k | k in links && links[k].account == account
  }

  function Moved(s: State, i: nat, slot: Slot): State
    requires i < |s.slots|
  {
    State(s.d, s.nextNumber, s.slots[i := slot], s.answers)
  }

  function Replied(s: State, i: nat, account: Option<nat>, d: Ledger): State
    requires i < |s.slots| && !s.slots[i].Idle?
  {
    State(d, s.nextNumber, s.slots[i := Idle], s.answers + [Answer(s.slots[i].t, account, s.d.accounts.Keys)])
  }

  function Added(d: Ledger, t: Ticket): Ledger {
    Ledger(d.accounts[d.nextId := t.who.email], d.everCreated[d.nextId := t.who.email],
           d.createdBy[d.nextId := t.number], d.links, d.nextId + 1)
  }

  function Apply(s: State, step: Step): (r: State)
    ensures |r.slots| == |s.slots|
  {
    if !Enabled(s, step) then s else
    match step
    case FindLink(i, who, failed) =>
      var t := Ticket(s.nextNumber, who, Seen(s.d.links, who.subject), failed, false);
      State(s.d, s.nextNumber + 1, s.slots[i := if !failed && t.seen.Some? then Linked(t) else Unlinked(t)], s.answers)
    case FetchLinked(i, failed) =>
      var t := s.slots[i].t;
      if failed then Moved(s, i, Unlinked(t.(faulted := true)))
      else if t.seen.Some? && t.seen.value in s.d.accounts then Replied(s, i, t.seen, s.d)
      else Moved(s, i, Unlinked(t))
    case FindByEmail(i, found, failed) =>
      var t := s.slots[i].t.(addressFaulted := failed);
      Moved(s, i, if !failed && found.Some? then Chosen(t, found.value) else NoAccount(t))
    case Create(i, failed) =>
      var t := s.slots[i].t;
      if failed || EmailTaken(s.d.accounts, t.who.email) then Replied(s, i, None, s.d)
      else State(Added(s.d, t), s.nextNumber, s.slots[i := Chosen(t, s.d.nextId)], s.answers)
    case Bind(i, stored) =>
      var c := s.slots[i];
      Replied(s, i, Some(c.account),
              if stored then s.d.(links := Bound(s.d.links, c.t.who, c.account)) else s.d)
    case Remove(a, cascade) =>
      s.(d := s.d.(accounts := s.d.accounts - {a},
                   links := if cascade then s.d.links - LinksOf(s.d.links, a) else s.d.links))
  }

  function Start(n: nat): State { State(Ledger(map[], map[], map[], map[], 0), 0, seq(n, _ => Idle), []) }

  function After(n: nat, steps: seq<Step>): (s: State)
    ensures |s.slots| == n
  {
    if steps == [] then Start(n) else Apply(After(n, steps[..|steps| - 1]), steps[|steps| - 1])
  }

  // ---------------------------------------------------------------------------------------
  // Who a sign-in may become
  // ---------------------------------------------------------------------------------------

  predicate HasAddress(s: State, account: nat, email: string) {
    account in s.d.everCreated && s.d.everCreated[account] == email
  }

  /** The account the sign-in's subject was linked to is one with the sign-in's own address. */
  predicate SeenHasAddress(s: State, t: Ticket) { t.seen.Some? && HasAddress(s, t.seen.value, t.who.email) }

  /**
   Nobody gets an account but the one their subject is linked to or one with their address. A sign-in
   whose subject was linked to an account still live gets that account exactly when the store did not
   fail the lookups by subject, or its address is that account's and the lookup by address did not fail.
   */
  predicate AnswerRight(s: State, a: Answer) {
    && (a.account.Some? ==> a.account == a.t.seen || HasAddress(s, a.account.value, a.t.who.email))
    && (a.t.seen.Some? && a.t.seen.value in a.live ==>
          (a.account == a.t.seen <==> !a.t.faulted || (!a.t.addressFaulted && SeenHasAddress(s, a.t))))
  }

  /** What the lookup by address has told a sign-in whose subject's account is alive. */
  predicate SearchInv(s: State, slot: Slot)
    requires !slot.Idle? && slot.t.seen.Some?
  {
    && (slot.NoAccount? ==> slot.t.addressFaulted || !SeenHasAddress(s, slot.t))
    && (slot.Chosen? ==>
          (slot.account == slot.t.seen.value <==> !slot.t.addressFaulted && SeenHasAddress(s, slot.t)))
  }

  predicate SlotInv(s: State, slot: Slot) {
    !slot.Idle? ==>
      && (slot.Linked? ==> slot.t.seen.Some? && !slot.t.faulted)
      && (slot.t.seen.Some? ==> slot.t.seen.value < s.d.nextId)
      && (slot.t.seen.Some? && slot.t.seen.value in s.d.accounts ==> slot.Linked? || slot.t.faulted)
      && (slot.Chosen? ==> HasAddress(s, slot.account, slot.t.who.email))
      && (slot.t.seen.Some? && slot.t.seen.value in s.d.accounts ==> SearchInv(s, slot))
  }

  predicate AccountsInv(s: State) {
    && (forall a :: a in s.d.everCreated ==> a < s.d.nextId) && s.d.createdBy.Keys == s.d.everCreated.Keys
    && (forall a :: a in s.d.accounts ==> a in s.d.everCreated && s.d.everCreated[a] == s.d.accounts[a])
    && (forall a, b :: a in s.d.accounts && b in s.d.accounts && s.d.accounts[a] == s.d.accounts[b] ==> a == b)
  }

  predicate AnswerOld(s: State, a: Answer) { a.t.seen.Some? ==> a.t.seen.value < s.d.nextId }

  predicate Inv(s: State) {
    && AccountsInv(s)
    && (forall k :: k in s.d.links ==> s.d.links[k].account < s.d.nextId)
    && (forall i :: 0 <= i < |s.slots| ==> SlotInv(s, s.slots[i]))
    && (forall k :: 0 <= k < |s.answers| ==> AnswerRight(s, s.answers[k]) && AnswerOld(s, s.answers[k]))
  }

  lemma AccountsStep(s: State, step: Step)
    requires Inv(s)
    ensures AccountsInv(Apply(s, step))
    ensures forall k :: k in Apply(s, step).d.links ==> Apply(s, step).d.links[k].account < Apply(s, step).d.nextId
  {
    if Enabled(s, step) && step.Bind? {
      assert SlotInv(s, s.slots[step.slot]);
    }
  }

  /** Accounts come under new ids only, and none comes back. */
  predicate LedgerGrows(d: Ledger, e: Ledger) {
    && d.nextId <= e.nextId
    && (forall a :: a in d.everCreated ==> a in e.everCreated && e.everCreated[a] == d.everCreated[a])
    && (forall a :: a in e.everCreated && a < d.nextId ==> a in d.everCreated)
    && (forall a :: a in e.accounts && a < d.nextId ==> a in d.accounts)
  }

  lemma StepGrows(s: State, step: Step)
    requires Inv(s)
    ensures LedgerGrows(s.d, Apply(s, step).d)
  {
  }

  lemma SlotKept(s: State, r: State, slot: Slot)
    requires SlotInv(s, slot) && LedgerGrows(s.d, r.d)
    ensures SlotInv(r, slot)
  {
  }

  lemma OwnSlotStep(s: State, step: Step)
    requires Inv(s) && Enabled(s, step) && !step.Remove?
    ensures SlotInv(Apply(s, step), Apply(s, step).slots[step.slot])
  {
    assert SlotInv(s, s.slots[step.slot]);
  }

  lemma SlotStep(s: State, step: Step, i: nat)
    requires Inv(s) && i < |s.slots|
    ensures SlotInv(Apply(s, step), Apply(s, step).slots[i])
  {
    if Enabled(s, step) && !step.Remove? && step.slot == i {
      OwnSlotStep(s, step);
    } else {
      StepGrows(s, step);
      SlotKept(s, Apply(s, step), s.slots[i]);
    }
  }

  lemma AnswerStep(s: State, step: Step, k: nat)
    requires Inv(s) && k < |Apply(s, step).answers|
    ensures AnswerRight(Apply(s, step), Apply(s, step).answers[k])
    ensures AnswerOld(Apply(s, step), Apply(s, step).answers[k])
  {
    if k < |s.answers| {
      assert AnswerRight(s, s.answers[k]) && AnswerOld(s, s.answers[k]);
    } else {
      assert SlotInv(s, s.slots[step.slot]);
    }
  }

  lemma InvStep(s: State, step: Step)
    requires Inv(s)
    ensures Inv(Apply(s, step))
  {
    AccountsStep(s, step);
    forall i | 0 <= i < |s.slots| ensures SlotInv(Apply(s, step), Apply(s, step).slots[i]) {
      SlotStep(s, step, i);
    }
    forall k | 0 <= k < |Apply(s, step).answers|
      ensures AnswerRight(Apply(s, step), Apply(s, step).answers[k])
      ensures AnswerOld(Apply(s, step), Apply(s, step).answers[k])
    {
      AnswerStep(s, step, k);
    }
  }

  /** In every run no two accounts share an address, and every answer is right. */
  lemma {:induction false} RunInv(n: nat, steps: seq<Step>)
    ensures Inv(After(n, steps))
  {
    if steps != [] {
      RunInv(n, steps[..|steps| - 1]);
      InvStep(After(n, steps[..|steps| - 1]), steps[|steps| - 1]);
    }
  }

  // ---------------------------------------------------------------------------------------
  // How many accounts a sign-in makes
  // ---------------------------------------------------------------------------------------

  /** The sign-in has not come to creating an account. */
  predicate Early(slot: Slot) { slot.Linked? || slot.Unlinked? || slot.NoAccount? }

  /** Sign-ins in flight have numbers of their own, and no one's number but theirs who made it is an account's. */
  predicate Numbered(s: State) {
    && (forall a :: a in s.d.createdBy ==> a < s.d.nextId && s.d.createdBy[a] < s.nextNumber)
    && (forall i :: 0 <= i < |s.slots| && !s.slots[i].Idle? ==> s.slots[i].t.number < s.nextNumber)
    && (forall i, j :: 0 <= i < j < |s.slots| && !s.slots[i].Idle? && !s.slots[j].Idle? ==>
          s.slots[i].t.number != s.slots[j].t.number)
    && (forall i, a :: 0 <= i < |s.slots| && Early(s.slots[i]) && a in s.d.createdBy ==>
          s.d.createdBy[a] != s.slots[i].t.number)
  }

  predicate OneEach(s: State) {
    forall a, b :: a in s.d.createdBy && b in s.d.createdBy && s.d.createdBy[a] == s.d.createdBy[b] ==> a == b
  }

  /** One slot takes the next number, or keeps its number and may make an account if it was early. */
  predicate NumberShape(s: State, r: State, i: nat) {
    && i < |s.slots| == |r.slots| && r.slots == s.slots[i := r.slots[i]]
    && (if s.slots[i].Idle?
        then Early(r.slots[i]) && r.slots[i].t.number == s.nextNumber && r.nextNumber == s.nextNumber + 1
        else r.nextNumber == s.nextNumber && (r.slots[i].Idle? || r.slots[i].t.number == s.slots[i].t.number))
    && (Early(r.slots[i]) ==> s.slots[i].Idle? || Early(s.slots[i]))
    && (if Early(s.slots[i]) && r.slots[i].Chosen? && r.d.nextId > s.d.nextId
        then r.d.createdBy == s.d.createdBy[s.d.nextId := s.slots[i].t.number] && r.d.nextId == s.d.nextId + 1
        else r.d.createdBy == s.d.createdBy && r.d.nextId == s.d.nextId)
  }

  lemma StepNumbers(s: State, step: Step)
    requires Enabled(s, step) && !step.Remove?
    ensures NumberShape(s, Apply(s, step), step.slot)
  {
  }

  lemma NumberedShape(s: State, r: State, i: nat)
    requires Numbered(s) && NumberShape(s, r, i)
    ensures Numbered(r)
  {
  }

  lemma OneEachShape(s: State, r: State, i: nat)
    requires Numbered(s) && OneEach(s) && NumberShape(s, r, i)
    ensures OneEach(r)
  {
  }

  lemma NumberedStep(s: State, step: Step)
    requires Numbered(s) && OneEach(s)
    ensures Numbered(Apply(s, step)) && OneEach(Apply(s, step))
  {
    if Enabled(s, step) && !step.Remove? {
      StepNumbers(s, step);
      NumberedShape(s, Apply(s, step), step.slot);
      OneEachShape(s, Apply(s, step), step.slot);
    }
  }

  /** In every run every account ever made was made by one sign-in, and no sign-in made two. */
  lemma {:induction false} OneAccountEach(n: nat, steps: seq<Step>)
    ensures Numbered(After(n, steps)) && OneEach(After(n, steps))
    ensures After(n, steps).d.createdBy.Keys == After(n, steps).d.everCreated.Keys
  {
    if steps != [] {
      OneAccountEach(n, steps[..|steps| - 1]);
      RunInv(n, steps);
      NumberedStep(After(n, steps[..|steps| - 1]), steps[|steps| - 1]);
    }
  }

  // ---------------------------------------------------------------------------------------
  // A subject once bound stays bound
  // ---------------------------------------------------------------------------------------

  lemma LinkStep(s: State, step: Step, subject: Subject)
    requires Inv(s) && subject in s.d.links && s.d.links[subject].account in Apply(s, step).d.accounts
    ensures s.d.links[subject].account in s.d.accounts
    ensures subject in Apply(s, step).d.links && Apply(s, step).d.links[subject].account == s.d.links[subject].account
  {
  }

  lemma {:induction false} CountersGrow(n: nat, before: seq<Step>, steps: seq<Step>)
    requires before <= steps
    ensures After(n, before).d.nextId <= After(n, steps).d.nextId
    ensures After(n, before).nextNumber <= After(n, steps).nextNumber
  {
    if before != steps {
      assert before <= steps[..|steps| - 1];
      CountersGrow(n, before, steps[..|steps| - 1]);
    }
  }

  lemma NeverRecreated(n: nat, before: seq<Step>, rest: seq<Step>, last: Step, account: nat)
    requires before <= rest && account < After(n, before).d.nextId && Inv(After(n, rest))
    requires account in Apply(After(n, rest), last).d.accounts
    ensures account in After(n, rest).d.accounts
  {
    CountersGrow(n, before, rest);
  }

  /** While the account lives, no run of sign-ins moves its subject to another account. */
  lemma {:induction false} LinkFixed(n: nat, before: seq<Step>, steps: seq<Step>, subject: Subject)
    requires before <= steps && subject in After(n, before).d.links
    requires After(n, before).d.links[subject].account in After(n, steps).d.accounts
    ensures subject in After(n, steps).d.links
    ensures After(n, steps).d.links[subject].account == After(n, before).d.links[subject].account
  {
    if before != steps {
      var rest, last := steps[..|steps| - 1], steps[|steps| - 1];
      assert before <= rest;
      RunInv(n, rest);
      RunInv(n, before);
      NeverRecreated(n, before, rest, last, After(n, before).d.links[subject].account);
      LinkFixed(n, before, rest, subject);
      LinkStep(After(n, rest), last, subject);
    }
  }

  /** A sign-in by `subject` that started at number `from` or later. */
  predicate LaterBy(t: Ticket, subject: Subject, from: nat) { t.who.subject == subject && t.number >= from }

  /** Every such sign-in started with `account` as its subject's, if that account is alive. */
  predicate AllSee(s: State, subject: Subject, from: nat, account: nat) {
    && (account in s.d.accounts ==>
          forall i :: 0 <= i < |s.slots| && !s.slots[i].Idle? && LaterBy(s.slots[i].t, subject, from) ==>
            s.slots[i].t.seen == Some(account))
    && (forall k :: 0 <= k < |s.answers| && LaterBy(s.answers[k].t, subject, from) ==>
          account in s.answers[k].live ==> s.answers[k].t.seen == Some(account))
  }

  lemma AllSeeStep(s: State, step: Step, subject: Subject, from: nat, account: nat)
    requires AllSee(s, subject, from, account)
    requires account in Apply(s, step).d.accounts ==> account in s.d.accounts
    requires account in s.d.accounts ==> Seen(s.d.links, subject) == Some(account)
    ensures AllSee(Apply(s, step), subject, from, account)
  {
  }

  predicate NumbersBelow(s: State) {
    && (forall i :: 0 <= i < |s.slots| && !s.slots[i].Idle? ==> s.slots[i].t.number < s.nextNumber)
    && (forall k :: 0 <= k < |s.answers| ==> s.answers[k].t.number < s.nextNumber)
  }

  lemma NumbersStep(s: State, step: Step)
    requires NumbersBelow(s)
    ensures NumbersBelow(Apply(s, step))
  {
  }

  lemma {:induction false} NumbersTaken(n: nat, steps: seq<Step>)
    ensures NumbersBelow(After(n, steps))
  {
    if steps != [] {
      NumbersTaken(n, steps[..|steps| - 1]);
      NumbersStep(After(n, steps[..|steps| - 1]), steps[|steps| - 1]);
    }
  }

  lemma {:induction false} LaterSignInsSee(n: nat, before: seq<Step>, steps: seq<Step>, subject: Subject)
    requires before <= steps && subject in After(n, before).d.links
    ensures AllSee(After(n, steps), subject, After(n, before).nextNumber, After(n, before).d.links[subject].account)
  {
    var from, account := After(n, before).nextNumber, After(n, before).d.links[subject].account;
    if before == steps {
      NumbersTaken(n, before);
    } else {
      var rest, last := steps[..|steps| - 1], steps[|steps| - 1];
      assert before <= rest;
      LaterSignInsSee(n, before, rest, subject);
      RunInv(n, rest);
      RunInv(n, before);
      if account in Apply(After(n, rest), last).d.accounts {
        NeverRecreated(n, before, rest, last, account);
      }
      if account in After(n, rest).d.accounts {
        LinkFixed(n, before, rest, subject);
      }
      AllSeeStep(After(n, rest), last, subject, from, account);
    }
  }

  /**
   A subject once bound to an account: every sign-in by that subject that starts later, whatever its
   address, and is answered while the account lives, is answered with that account, exactly when the
   store did not fail its lookups by subject, or its address is that account's and that lookup did not fail.
   */
  lemma BoundSubjectAnswered(n: nat, before: seq<Step>, steps: seq<Step>, subject: Subject, k: nat)
    requires before <= steps && subject in After(n, before).d.links && k < |After(n, steps).answers|
    requires var a := After(n, steps).answers[k];
      LaterBy(a.t, subject, After(n, before).nextNumber) && After(n, before).d.links[subject].account in a.live
    ensures var s, a, account := After(n, steps), After(n, steps).answers[k], After(n, before).d.links[subject].account;
      a.account == Some(account) <==>
      !a.t.faulted || (!a.t.addressFaulted && HasAddress(s, account, a.t.who.email))
  {
    LaterSignInsSee(n, before, steps, subject);
    RunInv(n, steps);
    assert AnswerRight(After(n, steps), After(n, steps).answers[k]);
  }

  lemma Extend(n: nat, steps: seq<Step>, step: Step)
    ensures After(n, steps + [step]) == Apply(After(n, steps), step)
  {
    assert (steps + [step])[..|steps|] == steps;
  }

  /** One account, made and bound by the first sign-in. */
  predicate OneBound(s: State, n: nat, who: SignIn)
    requires n >= 1
  {
    && |s.slots| == n && s.slots[0].Idle? && s.d.nextId == 1 && s.d.accounts == map[0 := who.email]
    && s.d.links == map[who.subject := Link(0, who.email, who.verified)]
    && |s.answers| == 1 && s.answers[0].account == Some(0)
  }

  lemma CreatesAndBinds(s: State, n: nat, who: SignIn)
    requires n >= 1 && s == Start(n) && who.subject.provider != "" && who.subject.id != ""
    ensures var a := Apply(s, FindLink(0, who, false));
      var b := Apply(a, FindByEmail(0, None, false));
      var c := Apply(b, Create(0, false));
      OneBound(Apply(c, Bind(0, true)), n, who)
  {
    var a := Apply(s, FindLink(0, who, false));
    var t := Ticket(0, who, None, false, false);
    assert a.slots[0] == Unlinked(t) && a.d.accounts == map[];
    var b := Apply(a, FindByEmail(0, None, false));
    assert b.slots[0] == NoAccount(t) && b.d.accounts == map[];
    var c := Apply(b, Create(0, false));
    assert c.slots[0] == Chosen(t, 0);
  }

  lemma FirstSignIn(n: nat, who: SignIn) returns (steps: seq<Step>)
    requires n >= 1 && who.subject.provider != "" && who.subject.id != ""
    ensures OneBound(After(n, steps), n, who)
  {
    var find, look, make, bind := FindLink(0, who, false), FindByEmail(0, None, false), Create(0, false), Bind(0, true);
    Extend(n, [], find);
    assert [] + [find] == [find];
    Extend(n, [find], look);
    Extend(n, [find] + [look], make);
    Extend(n, [find] + [look] + [make], bind);
    CreatesAndBinds(Start(n), n, who);
    steps := [find] + [look] + [make] + [bind];
  }

  lemma MissesAndCreates(s: State, n: nat, first: SignIn, who: SignIn)
    requires n >= 1 && OneBound(s, n, first) && who.subject == first.subject && who.email != first.email
    ensures var a := Apply(s, FindLink(0, who, true));
      var b := Apply(a, FindByEmail(0, None, false));
      var c := Apply(b, Create(0, false));
      var d := Apply(c, Bind(0, true));
      && d.d.links == s.d.links && d.d.accounts == s.d.accounts[1 := who.email]
      && d.answers == s.answers + [Answer(Ticket(s.nextNumber, who, Some(0), true, false), Some(1), {0, 1})]
  {
    var a := Apply(s, FindLink(0, who, true));
    var t := Ticket(s.nextNumber, who, Some(0), true, false);
    assert a.slots[0] == Unlinked(t) && a.d.accounts == s.d.accounts;
    var b := Apply(a, FindByEmail(0, None, false));
    assert b.slots[0] == NoAccount(t) && b.d.accounts == s.d.accounts && b.answers == s.answers;
    var c := Apply(b, Create(0, false));
    assert c.slots[0] == Chosen(t, 1) && c.d.accounts.Keys == {0, 1};
  }

  lemma SecondSignIn(n: nat, before: seq<Step>, first: SignIn, who: SignIn) returns (steps: seq<Step>)
    requires n >= 1 && OneBound(After(n, before), n, first) && who.subject == first.subject && who.email != first.email
    ensures var s := After(n, steps);
      && s.d.links == After(n, before).d.links && 0 in s.d.accounts && |s.answers| == 2
      && s.answers[0].account == Some(0) && s.answers[1].t.seen == Some(0) && s.answers[1].account == Some(1)
  {
    var find, look, make, bind := FindLink(0, who, true), FindByEmail(0, None, false), Create(0, false), Bind(0, true);
    Extend(n, before, find);
    Extend(n, before + [find], look);
    Extend(n, before + [find] + [look], make);
    Extend(n, before + [find] + [look] + [make], bind);
    MissesAndCreates(After(n, before), n, first, who);
    steps := before + [find] + [look] + [make] + [bind];
  }

  /** A failed lookup can give a linked subject a second account: here a new one, for a new address. */
  lemma FailedLookupMisleads(n: nat, subject: Subject, was: string, now: string) returns (steps: seq<Step>)
    requires n >= 1 && subject.provider != "" && subject.id != "" && was != now
    ensures var s := After(n, steps);
      && subject in s.d.links && s.d.links[subject].account == 0 && 0 in s.d.accounts && |s.answers| == 2
      && s.answers[0].account == Some(0) && s.answers[1].t.seen == Some(0) && s.answers[1].account == Some(1)
  {
    var first, second := SignIn(subject, was, true), SignIn(subject, now, true);
    steps := FirstSignIn(n, first);
    steps := SecondSignIn(n, steps, first, second);
  }

  /** A removal takes the account, and with its links every subject bound to it, and nothing else. */
  lemma RemovalTakes(s: State, account: nat, cascade: bool)
    ensures var d, e := s.d, Apply(s, Remove(account, cascade)).d;
      && e.accounts == d.accounts - {account} && e.everCreated == d.everCreated && e.nextId == d.nextId
      && (forall k :: k in e.links <==> k in d.links && !(cascade && d.links[k].account == account))
      && (forall k :: k in e.links ==> e.links[k] == d.links[k])
  {
  }

  lemma UnboundOnlyByRemoval(s: State, step: Step, subject: Subject)
    requires subject in s.d.links && step != Remove(s.d.links[subject].account, true)
    ensures subject in Apply(s, step).d.links
    ensures Apply(s, step).d.links[subject].account == s.d.links[subject].account
  {
  }

  /** A link, also one whose account is gone, names its account for as long as it is not removed with it. */
  lemma {:induction false} OrphanStays(n: nat, before: seq<Step>, steps: seq<Step>, subject: Subject)
    requires before <= steps && subject in After(n, before).d.links
    requires forall k :: |before| <= k < |steps| ==> steps[k] != Remove(After(n, before).d.links[subject].account, true)
    ensures subject in After(n, steps).d.links
    ensures After(n, steps).d.links[subject].account == After(n, before).d.links[subject].account
  {
    if before != steps {
      var rest := steps[..|steps| - 1];
      assert before <= rest;
      OrphanStays(n, before, rest, subject);
      UnboundOnlyByRemoval(After(n, rest), steps[|steps| - 1], subject);
    }
  }

  /** The one account of the directory is gone and its link is not. */
  predicate OneOrphan(s: State, n: nat, who: SignIn)
    requires n >= 1
  {
    && |s.slots| == n && s.slots[0].Idle? && s.d.nextId == 1 && s.d.accounts == map[]
    && s.d.links == map[who.subject := Link(0, who.email, who.verified)] && |s.answers| == 1
  }

  lemma SignsInAgain(s: State, n: nat, first: SignIn, who: SignIn)
    requires n >= 1 && OneOrphan(s, n, first) && who.subject == first.subject
    ensures var a := Apply(Apply(s, FindLink(0, who, false)), FetchLinked(0, false));
      var b := Apply(Apply(a, FindByEmail(0, None, false)), Create(0, false));
      var c := Apply(b, Bind(0, true));
      && c.d.links == s.d.links && c.d.accounts == map[1 := who.email]
      && |c.answers| == 2 && c.answers[1].account == Some(1)
  {
    var t := Ticket(s.nextNumber, who, Some(0), false, false);
    var a := Apply(s, FindLink(0, who, false));
    assert a.slots[0] == Linked(t);
    a := Apply(a, FetchLinked(0, false));
    assert a.slots[0] == Unlinked(t) && a.d == s.d;
    var b := Apply(a, FindByEmail(0, None, false));
    assert b.slots[0] == NoAccount(t) && b.d == s.d && b.answers == s.answers;
    b := Apply(b, Create(0, false));
    assert b.slots[0] == Chosen(t, 1) && b.d.links == s.d.links;
  }

  /**
   An account removed without its link, and its subject signing in again: a new account, and a link that
   still names the old one, although the sign-in went on to bind its subject.
   */
  lemma OrphanNotRebound(n: nat, first: SignIn, who: SignIn) returns (steps: seq<Step>)
    requires n >= 1 && first.subject.provider != "" && first.subject.id != "" && who.subject == first.subject
    ensures var s := After(n, steps);
      && 0 !in s.d.accounts && s.d.accounts == map[1 := who.email]
      && who.subject in s.d.links && s.d.links[who.subject].account == 0
      && |s.answers| == 2 && s.answers[1].account == Some(1)
  {
    var before := FirstSignIn(n, first);
    var find, fetch, look := FindLink(0, who, false), FetchLinked(0, false), FindByEmail(0, None, false);
    Extend(n, before, Remove(0, false));
    var orphaned := before + [Remove(0, false)];
    SignsInAgain(After(n, orphaned), n, first, who);
    Extend(n, orphaned, find);
    Extend(n, orphaned + [find], fetch);
    Extend(n, orphaned + [find] + [fetch], look);
    Extend(n, orphaned + [find] + [fetch] + [look], Create(0, false));
    Extend(n, orphaned + [find] + [fetch] + [look] + [Create(0, false)], Bind(0, true));
    steps := orphaned + [find] + [fetch] + [look] + [Create(0, false)] + [Bind(0, true)];
  }

  // ---------------------------------------------------------------------------------------
  // One sign-in at a time
  // ---------------------------------------------------------------------------------------

  datatype Accounts = Accounts(accounts: map<nat, string>, links: map<Subject, Link>, nextId: nat)

  predicate UniqueEmails(d: Accounts) {
    forall a, b :: a in d.accounts && b in d.accounts && d.accounts[a] == d.accounts[b] ==> a == b
  }

  predicate HasOwner(d: Accounts, subject: Subject) {
    subject in d.links && d.links[subject].account in d.accounts
  }

  /** A sign-in takes the directory from `d` to `e` and is given `account`. */
  predicate Provisions(d: Accounts, e: Accounts, who: SignIn, account: nat) {
    if HasOwner(d, who.subject) then
      e == d && account == d.links[who.subject].account
    else if EmailTaken(d.accounts, who.email) then
      account in d.accounts && d.accounts[account] == who.email && e == d.(links := Bound(d.links, who, account))
    else
      account == d.nextId &&
      e == Accounts(d.accounts[account := who.email], Bound(d.links, who, account), d.nextId + 1)
  }

  /** Addresses being unique, what a sign-in does is determined: the flows of two providers cannot differ. */
  lemma ProvisionsDetermined(d: Accounts, e: Accounts, f: Accounts, who: SignIn, a: nat, b: nat)
    requires UniqueEmails(d) && Provisions(d, e, who, a) && Provisions(d, f, who, b)
    ensures e == f && a == b
  {
  }

  /** Signing in again at once changes nothing and gives the same account. */
  lemma SignInAgain(d: Accounts, e: Accounts, f: Accounts, who: SignIn, a: nat, b: nat)
    requires UniqueEmails(d) && (forall x :: x in d.accounts ==> x < d.nextId)
    requires Provisions(d, e, who, a) && Provisions(e, f, who, b)
    ensures f == e && b == a
  {
    if !HasOwner(d, who.subject) {
      assert e.accounts[a] == who.email;
      assert EmailTaken(e.accounts, who.email);
    }
  }

  /** What a sign-in does to the links: it binds a subject that had none, and touches no other. */
  lemma ProvisionsBinds(d: Accounts, e: Accounts, who: SignIn, account: nat)
    requires Provisions(d, e, who, account)
    ensures who.subject !in d.links && who.subject.provider != "" && who.subject.id != "" ==>
      who.subject in e.links && e.links[who.subject] == Link(account, who.email, who.verified)
    ensures forall k :: k != who.subject ==> (k in e.links <==> k in d.links)
    ensures forall k :: k in d.links ==> k in e.links && e.links[k].account == d.links[k].account
  {
  }

  /** What it does to the accounts: it keeps them all and adds one, with its address, only if it must. */
  lemma ProvisionsKeeps(d: Accounts, e: Accounts, who: SignIn, account: nat)
    requires Provisions(d, e, who, account) && forall x :: x in d.accounts ==> x < d.nextId
    ensures account in e.accounts && forall a :: a in d.accounts ==> a in e.accounts && e.accounts[a] == d.accounts[a]
    ensures forall a :: a in e.accounts && a !in d.accounts ==>
      a == account && e.accounts[a] == who.email && !HasOwner(d, who.subject) && !EmailTaken(d.accounts, who.email)
    ensures !HasOwner(d, who.subject) ==> e.accounts[account] == who.email
    ensures forall x :: x in e.accounts ==> x < e.nextId
  {
  }

  /** Sign-ins one after another, each given its account. */
  predicate SignIns(d: seq<Accounts>, who: seq<SignIn>, given: seq<nat>) {
    && |d| == |who| + 1 && |given| == |who|
    && (forall x :: x in d[0].accounts ==> x < d[0].nextId)
    && (forall k :: 0 <= k < |who| ==> Provisions(d[k], d[k + 1], who[k], given[k]))
  }

  lemma {:induction false} IdsBelow(d: seq<Accounts>, who: seq<SignIn>, given: seq<nat>, k: nat)
    requires SignIns(d, who, given) && k <= |who|
    ensures forall x :: x in d[k].accounts ==> x < d[k].nextId
  {
    if k > 0 {
      IdsBelow(d, who, given, k - 1);
      ProvisionsKeeps(d[k - 1], d[k], who[k - 1], given[k - 1]);
    }
  }

  lemma {:induction false} OwnerKept(
    d: seq<Accounts>, who: seq<SignIn>, given: seq<nat>, i: nat, j: nat, subject: Subject)
    requires SignIns(d, who, given) && i <= j <= |who| && HasOwner(d[i], subject)
    ensures HasOwner(d[j], subject) && d[j].links[subject].account == d[i].links[subject].account
  {
    if i < j {
      OwnerKept(d, who, given, i, j - 1, subject);
      IdsBelow(d, who, given, j - 1);
      ProvisionsBinds(d[j - 1], d[j], who[j - 1], given[j - 1]);
      ProvisionsKeeps(d[j - 1], d[j], who[j - 1], given[j - 1]);
    }
  }

  /**
   However many sign-ins of others come in between, a subject that had no link, or one to an account
   there is, is given the same account at every later sign-in, whatever its address is by then.
   */
  lemma SameAccountEver(d: seq<Accounts>, who: seq<SignIn>, given: seq<nat>, i: nat, j: nat)
    requires SignIns(d, who, given) && i < j < |who| && who[i].subject == who[j].subject
    requires who[i].subject.provider != "" && who[i].subject.id != ""
    requires who[i].subject in d[i].links ==> HasOwner(d[i], who[i].subject)
    ensures given[j] == given[i] && d[j + 1] == d[j]
  {
    IdsBelow(d, who, given, i);
    ProvisionsBinds(d[i], d[i + 1], who[i], given[i]);
    ProvisionsKeeps(d[i], d[i + 1], who[i], given[i]);
    OwnerKept(d, who, given, i + 1, j, who[i].subject);
    assert Provisions(d[j], d[j + 1], who[j], given[j]);
  }

  // ---------------------------------------------------------------------------------------
  // The steps of one sign-in with nothing between them
  // ---------------------------------------------------------------------------------------

  function DirectoryOf(d: Ledger): Accounts { Accounts(d.accounts, d.links, d.nextId) }

  function SignedIn(s: State, i: nat, who: SignIn, found: Option<nat>): State {
    var looked := Apply(Apply(s, FindLink(i, who, false)), FetchLinked(i, false));
    Apply(Apply(Apply(looked, FindByEmail(i, found, false)), Create(i, false)), Bind(i, true))
  }

  /** The sign-in went from `s` to `t` and was given `account`. */
  predicate Answered(s: State, t: State, who: SignIn, account: nat) {
    && t.slots == s.slots && t.nextNumber == s.nextNumber + 1
    && Provisions(DirectoryOf(s.d), DirectoryOf(t.d), who, account)
    && |t.answers| == |s.answers| + 1 && t.answers[..|s.answers|] == s.answers
    && t.answers[|s.answers|].t.who == who && t.answers[|s.answers|].account == Some(account)
  }

  lemma LooksUpLink(s: State, i: nat, who: SignIn)
    requires i < |s.slots| && s.slots[i].Idle?
    ensures var t := Ticket(s.nextNumber, who, Seen(s.d.links, who.subject), false, false);
      Apply(Apply(s, FindLink(i, who, false)), FetchLinked(i, false)) ==
        if HasOwner(DirectoryOf(s.d), who.subject)
        then State(s.d, s.nextNumber + 1, s.slots, s.answers + [Answer(t, t.seen, s.d.accounts.Keys)])
        else State(s.d, s.nextNumber + 1, s.slots[i := Unlinked(t)], s.answers)
  {
    var t := Ticket(s.nextNumber, who, Seen(s.d.links, who.subject), false, false);
    assert s.slots[i := Linked(t)][i := Idle] == s.slots;
    assert s.slots[i := Linked(t)][i := Unlinked(t)] == s.slots[i := Unlinked(t)];
  }

  lemma FindsOneAndBinds(s: State, i: nat, t: Ticket, account: nat)
    requires i < |s.slots| && s.slots[i] == Unlinked(t) && !t.addressFaulted
    requires Finds(s.d.accounts, t.who.email, Some(account))
    ensures Apply(Apply(Apply(s, FindByEmail(i, Some(account), false)), Create(i, false)), Bind(i, true)) ==
      State(s.d.(links := Bound(s.d.links, t.who, account)), s.nextNumber, s.slots[i := Idle],
            s.answers + [Answer(t, Some(account), s.d.accounts.Keys)])
  {
    var a := Apply(s, FindByEmail(i, Some(account), false));
    assert a == State(s.d, s.nextNumber, s.slots[i := Chosen(t, account)], s.answers);
    assert Apply(a, Create(i, false)) == a;
    assert a.slots[i := Idle] == s.slots[i := Idle];
  }

  lemma FindsNoneAndBinds(s: State, i: nat, t: Ticket)
    requires i < |s.slots| && s.slots[i] == Unlinked(t) && !t.addressFaulted
    requires Finds(s.d.accounts, t.who.email, None)
    ensures var d := Added(s.d, t);
      Apply(Apply(Apply(s, FindByEmail(i, None, false)), Create(i, false)), Bind(i, true)) ==
      State(d.(links := Bound(d.links, t.who, s.d.nextId)), s.nextNumber, s.slots[i := Idle],
            s.answers + [Answer(t, Some(s.d.nextId), d.accounts.Keys)])
  {
    var a := Apply(s, FindByEmail(i, None, false));
    assert a == State(s.d, s.nextNumber, s.slots[i := NoAccount(t)], s.answers);
    var b := Apply(a, Create(i, false));
    assert a.slots[i := Chosen(t, s.d.nextId)] == s.slots[i := Chosen(t, s.d.nextId)];
    assert b == State(Added(s.d, t), s.nextNumber, s.slots[i := Chosen(t, s.d.nextId)], s.answers);
    assert b.slots[i := Idle] == s.slots[i := Idle];
  }

  /** Then, if the store does not fail, the sign-in does and answers what the one-at-a-time flows do. */
  lemma UndisturbedSignIn(s: State, i: nat, who: SignIn, found: Option<nat>) returns (account: nat)
    requires i < |s.slots| && s.slots[i].Idle? && Finds(s.d.accounts, who.email, found)
    ensures Answered(s, SignedIn(s, i, who, found), who, account)
  {
    var t := Ticket(s.nextNumber, who, Seen(s.d.links, who.subject), false, false);
    var looked := Apply(Apply(s, FindLink(i, who, false)), FetchLinked(i, false));
    LooksUpLink(s, i, who);
    if HasOwner(DirectoryOf(s.d), who.subject) {
      account := t.seen.value;
      assert Apply(looked, FindByEmail(i, found, false)) == looked;
    } else {
      assert looked.slots[i := Idle] == s.slots;
      if found.Some? {
        account := found.value;
        FindsOneAndBinds(looked, i, t, account);
      } else {
        account := s.d.nextId;
        FindsNoneAndBinds(looked, i, t);
      }
    }
  }

  class Directory {
    var accounts: map<nat, string>
    var links: map<Subject, Link>
    var nextId: nat

    function Contents(): Accounts
      reads this
    {
      Accounts(accounts, links, nextId)
    }

    ghost predicate Valid()
      reads this
    {
      UniqueEmails(Contents()) && forall a :: a in accounts ==> a < nextId
    }

    constructor ()
      ensures Valid() && Contents() == Accounts(map[], map[], 0)
    {
      accounts, links, nextId := map[], map[], 0;
    }

    method UpsertOAuthLink(account: nat, who: SignIn)
      modifies this`links
      ensures links == Bound(old(links), who, account)
    {
      if who.subject.provider == "" || who.subject.id == "" {
        return;
      }
      if who.subject in links && links[who.subject].account != account {
        return;
      }
      links := links[who.subject := Link(account, who.email, who.verified)];
    }

    /** The shared flow; it takes every address as verified. */
    method ProvisionOrFetchOAuthAccount(provider: string, subject: string, email: string) returns (account: nat)
      requires Valid()
      modifies this
      ensures Valid() && account in accounts
      ensures Provisions(old(Contents()), Contents(), SignIn(Subject(provider, subject), email, true), account)
      ensures provider != "" && subject != "" && Subject(provider, subject) !in old(links) ==>
        Subject(provider, subject) in links && links[Subject(provider, subject)] == Link(account, email, true)
    {
      var who := SignIn(Subject(provider, subject), email, true);
      if who.subject in links {
        var linked := links[who.subject].account;
        if linked in accounts {
          return linked;
        }
      }
      if EmailTaken(accounts, email) {
        account :| account in accounts && accounts[account] == email;
        UpsertOAuthLink(account, who);
        return;
      }
      account := nextId;
      accounts := accounts[account := email];
      nextId := nextId + 1;
      UpsertOAuthLink(account, who);
    }

    /** The Google flow; it records whether Google has verified the address. */
    method ProvisionOrFetchGoogleAccount(id: string, email: string, verified: bool) returns (account: nat)
      requires Valid()
      modifies this
      ensures Valid() && account in accounts
      ensures Provisions(old(Contents()), Contents(), SignIn(Subject("google", id), email, verified), account)
      ensures id != "" && Subject("google", id) !in old(links) ==>
        Subject("google", id) in links && links[Subject("google", id)] == Link(account, email, verified)
    {
      var who := SignIn(Subject("google", id), email, verified);
      if who.subject in links && links[who.subject].account in accounts {
        return links[who.subject].account;
      }
      if EmailTaken(accounts, email) {
        account :| account in accounts && accounts[account] == email;
      } else {
        account := nextId;
        accounts := accounts[account := email];
        nextId := nextId + 1;
      }
      UpsertOAuthLink(account, who);
    }
  }
}
