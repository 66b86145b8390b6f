/** Confirming wallet top-ups concurrently: webhooks and customers read a ledger row, act on what they read
    some time later, and race on the conditional flip from PENDING. Everything else the money rows go
    through may happen in between. */
module TopUp {
  import opened Results
  import opened Money
  import opened Ledger
  import opened MoneyInvariant
  import Conservation

  /** What Stripe reports for the payment when it is asked. */
  datatype Intent = IntentSucceeded | IntentCanceled | IntentOther

  datatype Answer = AnswerSuccess | AnswerFailed | AnswerCancelled | AnswerPending

  /** Where a confirmation is. `manual` is `confirmTopUp`, which must answer its caller; otherwise it is a
      webhook. `Flipping` remembers the wallet and amount it read. */
  datatype Control =
    | Starting
    | Asking
    | Crediting(manual: bool)
    | Flipping(manual: bool, wallet: nat, amount: int)
    | Failing(manual: bool)
    | Done(answer: Option<Answer>)

  /** One confirmation under way for a top-up row. */
  datatype Actor = Actor(entry: nat, control: Control)

  datatype System = System(store: State, actors: seq<Actor>)

  datatype Event =
    | Arrive(actor: Actor)
    | Advance(index: nat, intent: Intent)
    | Other(action: Action)

  predicate IsTopUp(s: State, entry: nat) {
    entry < |s.ledger| && s.ledger[entry].kind.TopUp?
  }

  /** How a confirmation begins: a webhook that credits, a webhook that fails, a manual confirmation. */
  predicate Begins(control: Control) {
    control == Crediting(false) || control == Failing(false) || control == Starting
  }

  function Reply(manual: bool, answer: Answer): Control {
    Done(if manual then Some(answer) else None)
  }

  /** One atomic step of a confirmation: a read, a call to Stripe, or a conditional update. */
  function Act(s: State, actor: Actor, intent: Intent): (r: (State, Control))
    requires IsTopUp(s, actor.entry)
  {
    var e := s.ledger[actor.entry];
    match actor.control
    case Starting =>
      (s, match e.status
          case Success => Done(Some(AnswerSuccess))
          case Failed => Done(Some(AnswerFailed))
          case Cancelled => Done(Some(AnswerCancelled))
          case Pending => Asking)
    case Asking =>
      (s, match intent
          case IntentSucceeded => Crediting(true)
          case IntentCanceled => Failing(true)
          case IntentOther => Done(Some(AnswerPending)))
    case Crediting(manual) =>
      (s, if e.status.Success? then Reply(manual, AnswerSuccess) else Flipping(manual, e.wallet, e.amount))
    case Flipping(manual, w, amount) =>
      var flipped := e.status == EntryStatus.Pending && w < |s.wallets|;
      (if flipped then Adjust(SetEntry(s, actor.entry, Success), w, amount, 0) else s, Reply(manual, AnswerSuccess))
    case Failing(manual) =>
      var flipped := e.status == EntryStatus.Pending;
      (if flipped then SetEntry(s, actor.entry, EntryStatus.Failed) else s, Reply(manual, AnswerFailed))
    case Done(_) => (s, actor.control)
  }

  function Happen(sys: System, event: Event): System {
    match event
    case Arrive(actor) =>
      if IsTopUp(sys.store, actor.entry) && Begins(actor.control) then sys.(actors := sys.actors + [actor]) else sys
    case Advance(i, intent) =>
      if i < |sys.actors| && IsTopUp(sys.store, sys.actors[i].entry) then
        var (s, control) := Act(sys.store, sys.actors[i], intent);
        System(s, sys.actors[i := sys.actors[i].(control := control)])
      else sys
    case Other(action) => sys.(store := Step(sys.store, action))
  }

  function Unfold(sys: System, events: seq<Event>): System
    decreases |events|
  {
    if events == [] then sys else Unfold(Happen(sys, events[0]), events[1..])
  }

  // ----- every interleaving is a run of atomic actions

  /** A confirmation about to flip still knows the wallet and amount of its row. */
  ghost predicate FreshRead(s: State, actor: Actor) {
    && IsTopUp(s, actor.entry)
    && (actor.control.Flipping? ==>
          && actor.control.wallet == s.ledger[actor.entry].wallet
          && actor.control.amount == s.ledger[actor.entry].amount)
  }

  ghost predicate SystemOk(sys: System) {
    Inv(sys.store) && forall i :: 0 <= i < |sys.actors| ==> FreshRead(sys.store, sys.actors[i])
  }

  /** The action on the rows that an event amounts to, if any. */
  function ActionOf(sys: System, event: Event): seq<Action> {
    match event
    case Arrive(_) => []
    case Other(action) => [action]
    case Advance(i, _) =>
      if i < |sys.actors| && sys.actors[i].control.Flipping? then [CompleteTopUpAction(sys.actors[i].entry)]
      else if i < |sys.actors| && sys.actors[i].control.Failing? then [FailTopUpAction(sys.actors[i].entry)]
      else []
  }

  function ActionsOf(sys: System, events: seq<Event>): seq<Action>
    decreases |events|
  {
    if events == [] then [] else ActionOf(sys, events[0]) + ActionsOf(Happen(sys, events[0]), events[1..])
  }

  /** No step changes an entry but for its status, and a top-up's status only from PENDING, by the action
      that settles it. */
  lemma StepKeepsTopUp(s: State, a: Action, entry: nat)
    requires Inv(s) && IsTopUp(s, entry)
    ensures var s' := Step(s, a);
            && IsTopUp(s', entry)
            && s'.ledger[entry] == s.ledger[entry].(status := s'.ledger[entry].status)
            && (s'.ledger[entry].status != s.ledger[entry].status ==>
                  && s.ledger[entry].status == EntryStatus.Pending
                  && ((a == CompleteTopUpAction(entry) && s'.ledger[entry].status.Success?)
                      || (a == FailTopUpAction(entry) && s'.ledger[entry].status.Failed?)))
  {
    assert s.ledger[entry] in s.ledger;
    assert s.ledger[entry].withdrawalId.None?;
    hide InvExcept, UpdateOrderStatus, CancelOrder, FindWallet, VoidEntries, HasRewardEntry;
    if a.UpdateOrderStatusAction? {
      UpdateExtendsLedger(s, a.provider, a.order, a.next, a.hasReason);
    } else if a.CancelOrderAction? {
      CancelExtendsLedger(s, a.user, a.order, a.percent, a.drift);
    } else if (a.RejectAction? || a.CancelPayoutAction?) && a.payout < |s.payouts| {
      VoidAt(s.ledger, a.payout, EntryStatus.Cancelled, entry);
    }
  }

  /** Only entries other than top-ups are added. */
  ghost predicate Extends(ledger: seq<Entry>, after: seq<Entry>) {
    && |ledger| <= |after|
    && (forall i :: 0 <= i < |ledger| ==> after[i] == ledger[i])
    && (forall i :: |ledger| <= i < |after| ==> !after[i].kind.TopUp?)
  }

  lemma UpdateExtendsLedger(s: State, provider: nat, order: nat, next: OrderStatus, hasReason: bool)
    ensures var r := UpdateOrderStatus(s, provider, order, next, hasReason);
            r.Ok? ==> Extends(s.ledger, r.value.ledger)
  {
    hide DebitCustomer, EarnOrder;
    if order < |s.orders| {
      var o := s.orders[order];
      DebitExtendsLedger(s, o.user, order, o.total);
      var debited := if o.status.Pending? && next.Accepted? then DebitCustomer(s, o.user, order, o.total) else Ok(s);
      if debited.Ok? && order < |debited.value.orders| {
        EarnExtendsLedger(SetOrder(debited.value, order, next), provider, order, o.total);
      }
    }
  }

  lemma DebitExtendsLedger(s: State, user: nat, order: nat, total: nat)
    ensures var r := DebitCustomer(s, user, order, total);
            r.Ok? ==> Extends(s.ledger, r.value.ledger)
  {
    hide FindWallet;
  }

  lemma EarnExtendsLedger(s: State, provider: nat, order: nat, total: nat)
    ensures Extends(s.ledger, EarnOrder(s, provider, order, total).ledger)
  {
    hide FindWallet;
  }

  lemma CancelExtendsLedger(s: State, user: nat, order: nat, percent: Percent, drift: Drift)
    ensures var r := CancelOrder(s, user, order, percent, drift);
            r.Ok? ==> Extends(s.ledger, r.value.ledger)
  {
  }

  /** A top-up row first appears pending. */
  lemma NewTopUpIsPending(s: State, a: Action, entry: nat)
    requires Inv(s) && !IsTopUp(s, entry) && IsTopUp(Step(s, a), entry)
    ensures Step(s, a).ledger[entry].status == EntryStatus.Pending
  {
    hide InvExcept, UpdateOrderStatus, CancelOrder, FindWallet, VoidEntries, HasRewardEntry;
    if a.UpdateOrderStatusAction? {
      UpdateExtendsLedger(s, a.provider, a.order, a.next, a.hasReason);
    } else if a.CancelOrderAction? {
      CancelExtendsLedger(s, a.user, a.order, a.percent, a.drift);
    } else if (a.RejectAction? || a.CancelPayoutAction?) && a.payout < |s.payouts| && entry < |s.ledger| {
      VoidAt(s.ledger, a.payout, EntryStatus.Cancelled, entry);
    }
  }

  /** A confirmation's step is the action it amounts to: what it read earlier is still what the row says. */
  lemma ActRefines(s: State, actor: Actor, intent: Intent)
    requires Inv(s) && FreshRead(s, actor)
    ensures var (s', control) := Act(s, actor, intent);
            && s' == (if actor.control.Flipping? then CompleteTopUp(s, actor.entry)
                      else if actor.control.Failing? then FailTopUp(s, actor.entry) else s)
            && FreshRead(s', actor.(control := control))
  {
  }

  lemma HappenRefines(sys: System, event: Event)
    requires SystemOk(sys)
    ensures SystemOk(Happen(sys, event))
    ensures Happen(sys, event).store == Run(sys.store, ActionOf(sys, event))
  {
    hide Inv, Step, Act, CompleteTopUp, FailTopUp;
    var sys' := Happen(sys, event);
    match event
    case Arrive(_) =>
    case Other(action) =>
      RunOne(sys.store, action);
      StoreStepOk(sys, action);
    case Advance(i, intent) =>
      if i < |sys.actors| {
        var actor := sys.actors[i];
        ActRefines(sys.store, actor, intent);
        if actor.control.Flipping? {
          RunOne(sys.store, CompleteTopUpAction(actor.entry));
          StepIs(sys.store, actor.entry);
          StoreStepOk(sys, CompleteTopUpAction(actor.entry));
        } else if actor.control.Failing? {
          RunOne(sys.store, FailTopUpAction(actor.entry));
          StepIs(sys.store, actor.entry);
          StoreStepOk(sys, FailTopUpAction(actor.entry));
        }
      }
  }

  lemma StepIs(s: State, entry: nat)
    ensures Step(s, CompleteTopUpAction(entry)) == CompleteTopUp(s, entry)
    ensures Step(s, FailTopUpAction(entry)) == FailTopUp(s, entry)
  {
  }

  lemma StoreStepOk(sys: System, a: Action)
    requires SystemOk(sys)
    ensures SystemOk(sys.(store := Step(sys.store, a)))
  {
    AttemptKeeps(sys.store, a);
    hide InvExcept, Attempt;
    forall i | 0 <= i < |sys.actors|
      ensures FreshRead(Step(sys.store, a), sys.actors[i])
    {
      assert FreshRead(sys.store, sys.actors[i]);
      StepKeepsTopUp(sys.store, a, sys.actors[i].entry);
    }
  }

  /** Every interleaving leaves the rows as some run of the atomic actions does. */
  lemma {:induction false} UnfoldRefines(sys: System, events: seq<Event>)
    requires SystemOk(sys)
    ensures SystemOk(Unfold(sys, events))
    ensures Unfold(sys, events).store == Run(sys.store, ActionsOf(sys, events))
    decreases |events|
  {
    hide SystemOk, Happen, ActionOf, Step;
    if events != [] {
      HappenRefines(sys, events[0]);
      var next := Happen(sys, events[0]);
      UnfoldRefines(next, events[1..]);
      RunConcat(sys.store, ActionOf(sys, events[0]), ActionsOf(next, events[1..]));
    }
  }

  // ----- exactly once

  predicate Settled(s: State, entry: nat, status: EntryStatus) {
    IsTopUp(s, entry) && s.ledger[entry].status == status
  }

  /** Whether an event credits a top-up: its row goes from pending to SUCCESS. */
  predicate Credits(sys: System, event: Event, entry: nat) {
    Settled(sys.store, entry, EntryStatus.Pending) && Settled(Happen(sys, event).store, entry, Success)
  }

  /** How many events of a run credit a top-up. */
  function CountCredits(sys: System, events: seq<Event>, entry: nat): nat
    decreases |events|
  {
    if events == [] then 0
    else CountCredits(Happen(sys, events[0]), events[1..], entry) + if Credits(sys, events[0], entry) then 1 else 0
  }

  /** A confirmation's step moves wallet money exactly when it credits its top-up, and then adds the row's
      amount to the row's wallet. */
  lemma CreditMovesMoney(sys: System, i: nat, intent: Intent)
    requires SystemOk(sys) && i < |sys.actors|
    ensures var entry := sys.actors[i].entry;
            && entry < |sys.store.ledger| && sys.store.ledger[entry].wallet < |sys.store.wallets|
            && var e, s' := sys.store.ledger[entry], Happen(sys, Advance(i, intent)).store;
            s'.wallets ==
            if Credits(sys, Advance(i, intent), entry) then Adjust(sys.store, e.wallet, e.amount, 0).wallets
            else sys.store.wallets
  {
    var actor := sys.actors[i];
    assert FreshRead(sys.store, actor);
    assert sys.store.ledger[actor.entry] in sys.store.ledger;
    assert InRange(sys.store, sys.store.ledger[actor.entry]);
    hide InvExcept, Shaped;
  }

  /** What an event can do to a top-up row: it appears pending, or is settled once. */
  lemma HappenToTopUp(sys: System, event: Event, entry: nat)
    requires SystemOk(sys)
    ensures var s, s' := sys.store, Happen(sys, event).store;
            && (IsTopUp(s, entry) ==>
                  && IsTopUp(s', entry)
                  && (s'.ledger[entry].status != s.ledger[entry].status ==>
                        s.ledger[entry].status == EntryStatus.Pending
                        && (s'.ledger[entry].status.Success? || s'.ledger[entry].status.Failed?)))
            && (!IsTopUp(s, entry) && IsTopUp(s', entry) ==> s'.ledger[entry].status == EntryStatus.Pending)
  {
    HappenRefines(sys, event);
    var actions := ActionOf(sys, event);
    hide Inv, Step, Happen;
    if |actions| == 1 {
      RunOne(sys.store, actions[0]);
      assert actions == [actions[0]];
      if IsTopUp(sys.store, entry) {
        StepKeepsTopUp(sys.store, actions[0], entry);
      } else if IsTopUp(Step(sys.store, actions[0]), entry) {
        NewTopUpIsPending(sys.store, actions[0], entry);
      }
    }
  }

  /** In every interleaving a top-up not yet settled is credited once if it ends SUCCESS and never
      otherwise; a settled one is not credited and keeps its status. */
  lemma {:induction false} CreditedOnce(sys: System, events: seq<Event>, entry: nat)
    requires SystemOk(sys)
    ensures var s, s' := sys.store, Unfold(sys, events).store;
            && (IsTopUp(s, entry) && s.ledger[entry].status != EntryStatus.Pending ==>
                  Settled(s', entry, s.ledger[entry].status) && CountCredits(sys, events, entry) == 0)
            && (!IsTopUp(s, entry) || s.ledger[entry].status == EntryStatus.Pending ==>
                  CountCredits(sys, events, entry) == if Settled(s', entry, Success) then 1 else 0)
    decreases |events|
  {
    hide SystemOk, Happen;
    if events != [] {
      HappenToTopUp(sys, events[0], entry);
      HappenRefines(sys, events[0]);
      CreditedOnce(Happen(sys, events[0]), events[1..], entry);
    }
  }

  const START := System(EMPTY, [])

  lemma StartOk()
    ensures SystemOk(START)
  {
  }

  /** From empty tables, through any interleaving of any number of confirmations with every other action:
      each top-up is credited once iff it is SUCCESS in the end, a settled row never changes again, and each
      wallet holds what its settled entries say. */
  lemma ConcurrentTopUps(events: seq<Event>, more: seq<Event>, entry: nat, w: nat)
    requires w < |Unfold(START, events).store.wallets|
    ensures var sys := Unfold(START, events);
            var wallet, ledger := sys.store.wallets[w], sys.store.ledger;
            && CountCredits(START, events, entry) == (if Settled(sys.store, entry, Success) then 1 else 0)
            && (IsTopUp(sys.store, entry) && ledger[entry].status != EntryStatus.Pending ==>
                  Settled(Unfold(sys, more).store, entry, ledger[entry].status))
            && (wallet.owner.Customer? ==>
                  wallet.balance + wallet.giftCredits ==
                  Conservation.BookedOn(ledger, w, Credit, Success) - Conservation.BookedOn(ledger, w, Debit, Success))
  {
    StartOk();
    UnfoldRefines(START, events);
    CreditedOnce(START, events, entry);
    CreditedOnce(Unfold(START, events), more, entry);
    assert START.store == EMPTY;
    Conservation.LedgerAgreement(ActionsOf(START, events), w);
  }

  // ----- what confirmations answer

  predicate Truthful(answer: Answer, status: EntryStatus) {
    match answer
    case AnswerSuccess => status.Success?
    case AnswerFailed => status.Failed?
    case AnswerCancelled => status.Cancelled?
    case AnswerPending => status.Pending?
  }

  /** The confirmation's next step answers its caller. */
  predicate Answers(s: State, actor: Actor, intent: Intent)
    requires IsTopUp(s, actor.entry)
  {
    var control := Act(s, actor, intent).1;
    !actor.control.Done? && control.Done? && control.answer.Some?
  }

  /** An answer tells the row's status exactly when the row was not settled the other way behind this
      confirmation's back: it answers SUCCESS after losing the flip to a failure, FAILED after losing it to a
      success, and PENDING, when Stripe is still processing, though the row it read pending was settled since. */
  lemma AnswerTruth(s: State, actor: Actor, intent: Intent)
    requires Inv(s) && FreshRead(s, actor) && Answers(s, actor, intent)
    ensures var (s', control) := Act(s, actor, intent);
            var before := s.ledger[actor.entry].status;
            && IsTopUp(s', actor.entry)
            && (Truthful(control.answer.value, s'.ledger[actor.entry].status)
                <==> !((actor.control.Flipping? && (before.Failed? || before.Cancelled?))
                       || (actor.control.Failing? && (before.Success? || before.Cancelled?))
                       || (actor.control.Asking? && !before.Pending?)))
  {
    assert s.ledger[actor.entry] in s.ledger;
    assert InRange(s, s.ledger[actor.entry]);
    hide InvExcept, Shaped;
  }

  ghost predicate AnsweredSettled(sys: System) {
    forall i :: 0 <= i < |sys.actors| ==>
      var actor := sys.actors[i];
      actor.control.Done? && actor.control.answer.Some? && !actor.control.answer.value.AnswerPending? ==>
        IsTopUp(sys.store, actor.entry) && sys.store.ledger[actor.entry].status != EntryStatus.Pending
  }

  /** An answer other than PENDING is given only about a settled row. */
  lemma {:induction false} AnswersAreSettled(sys: System, events: seq<Event>)
    requires SystemOk(sys) && AnsweredSettled(sys)
    ensures AnsweredSettled(Unfold(sys, events))
    decreases |events|
  {
    hide SystemOk, Happen, AnsweredSettled;
    if events != [] {
      AnswerStep(sys, events[0]);
      HappenRefines(sys, events[0]);
      AnswersAreSettled(Happen(sys, events[0]), events[1..]);
    }
  }

  lemma AnswerStep(sys: System, event: Event)
    requires SystemOk(sys) && AnsweredSettled(sys)
    ensures AnsweredSettled(Happen(sys, event))
  {
    var sys' := Happen(sys, event);
    forall i | 0 <= i < |sys'.actors|
      ensures var actor := sys'.actors[i];
              actor.control.Done? && actor.control.answer.Some? && !actor.control.answer.value.AnswerPending? ==>
                IsTopUp(sys'.store, actor.entry) && sys'.store.ledger[actor.entry].status != EntryStatus.Pending
    {
      var actor := sys'.actors[i];
      HappenToTopUp(sys, event, actor.entry);
      if event.Advance? && event.index == i && i < |sys.actors| {
        assert FreshRead(sys.store, sys.actors[i]);
        assert sys.store.ledger[actor.entry] in sys.store.ledger;
        assert InRange(sys.store, sys.store.ledger[actor.entry]);
        hide Inv, Step, Shaped;
      } else {
        hide Inv, Act, Step;
      }
    }
  }

  /** A confirmation that nothing comes between, from its arrival on: it answers what Stripe reports, and when that
      is success, and only then, pays the row's amount to the row's wallet in cash; when Stripe is still processing
      it changes nothing. */
  lemma ConfirmedAlone(s: State, entry: nat, intent: Intent)
    requires Inv(s) && OpenEntry(s, entry)
    ensures var e := s.ledger[entry];
            var advance := Advance(0, intent);
            var end := Unfold(System(s, []), [Arrive(Actor(entry, Starting)), advance, advance, advance, advance]);
            && e.wallet < |s.wallets|
            && end == match intent
                      case IntentSucceeded =>
                        System(s.(wallets := Credited(s.wallets, e),
                                  ledger := s.ledger[entry := e.(status := Success)]),
                               [Actor(entry, Done(Some(AnswerSuccess)))])
                      case IntentCanceled =>
                        System(s.(ledger := s.ledger[entry := e.(status := EntryStatus.Failed)]),
                               [Actor(entry, Done(Some(AnswerFailed)))])
                      case IntentOther => System(s, [Actor(entry, Done(Some(AnswerPending)))])
  {
    hide Step, Inv, Unfold, Act;
    EntryInRange(s, entry);
    var e, advance := s.ledger[entry], Advance(0, intent);
    var starting, asking := System(s, [Actor(entry, Starting)]), System(s, [Actor(entry, Asking)]);
    assert Happen(System(s, []), Arrive(Actor(entry, Starting))) == starting;
    StartsAsking(s, entry, intent);
    FiveEvents(System(s, []), Arrive(Actor(entry, Starting)), advance);
    match intent
    case IntentSucceeded =>
      AskedIs(s, entry, intent, Crediting(true));
      CreditAlone(s, entry, true, intent);
    case IntentCanceled =>
      AskedIs(s, entry, intent, Failing(true));
      FailAlone(s, entry, true, intent);
    case IntentOther =>
      AskedIs(s, entry, intent, Done(Some(AnswerPending)));
  }

  lemma FiveEvents(sys: System, first: Event, a: Event)
    ensures Unfold(sys, [first, a, a, a, a]) == Happen(Happen(Happen(Happen(Happen(sys, first), a), a), a), a)
    ensures Unfold(sys, [first, a, a]) == Happen(Happen(Happen(sys, first), a), a)
    ensures Unfold(sys, [first, a]) == Happen(Happen(sys, first), a)
  {
    hide Happen;
    UnfoldFirst(sys, first, [a, a, a, a]);
    UnfoldFirst(sys, first, [a, a]);
    UnfoldFirst(sys, first, [a]);
    var s1 := Happen(sys, first);
    assert [first] + [a, a, a, a] == [first, a, a, a, a] && [first] + [a, a] == [first, a, a];
    assert [first] + [a] == [first, a];
    UnfoldFirst(s1, a, [a, a, a]);
    assert [a] + [a, a, a] == [a, a, a, a];
    UnfoldTwo(s1, a);
    UnfoldFirst(Happen(s1, a), a, [a, a]);
    assert [a] + [a, a] == [a, a, a];
    UnfoldTwo(Happen(Happen(s1, a), a), a);
  }

  lemma UnfoldTwo(sys: System, a: Event)
    ensures Unfold(sys, [a, a]) == Happen(Happen(sys, a), a)
    ensures Unfold(sys, [a]) == Happen(sys, a)
  {
    hide Happen;
    UnfoldFirst(sys, a, [a]);
    UnfoldFirst(sys, a, []);
    UnfoldFirst(Happen(sys, a), a, []);
    assert [a] + [a] == [a, a] && [a] + [] == [a];
  }

  lemma UnfoldFirst(sys: System, event: Event, rest: seq<Event>)
    ensures Unfold(sys, [event] + rest) == Unfold(Happen(sys, event), rest)
    ensures Unfold(sys, []) == sys
  {
    assert ([event] + rest)[1..] == rest;
  }

  lemma StartsAsking(s: State, entry: nat, intent: Intent)
    requires OpenEntry(s, entry)
    ensures Happen(System(s, [Actor(entry, Starting)]), Advance(0, intent)) == System(s, [Actor(entry, Asking)])
  {
  }

  lemma AskedIs(s: State, entry: nat, intent: Intent, control: Control)
    requires OpenEntry(s, entry)
    requires control == match intent
                        case IntentSucceeded => Crediting(true)
                        case IntentCanceled => Failing(true)
                        case IntentOther => Done(Some(AnswerPending))
    ensures var advance := Advance(0, intent);
            && Happen(System(s, [Actor(entry, Asking)]), advance) == System(s, [Actor(entry, control)])
            && (control.Done? ==>
                  Happen(System(s, [Actor(entry, control)]), advance) == System(s, [Actor(entry, control)]))
  {
  }

  /** A credit alone: its read, its flip, and nothing more. */
  lemma CreditAlone(s: State, entry: nat, manual: bool, intent: Intent)
    requires OpenEntry(s, entry) && s.ledger[entry].wallet < |s.wallets|
    ensures var e, answer := s.ledger[entry], if manual then Some(AnswerSuccess) else None;
            Happen(Happen(System(s, [Actor(entry, Crediting(manual))]), Advance(0, intent)), Advance(0, intent)) ==
            System(s.(wallets := Credited(s.wallets, e), ledger := s.ledger[entry := e.(status := Success)]),
                   [Actor(entry, Done(answer))])
  {
    hide Step;
    var e := s.ledger[entry];
    assert Happen(System(s, [Actor(entry, Crediting(manual))]), Advance(0, intent))
        == System(s, [Actor(entry, Flipping(manual, e.wallet, e.amount))]);
  }

  /** A failure alone, after which nothing more happens. */
  lemma FailAlone(s: State, entry: nat, manual: bool, intent: Intent)
    requires OpenEntry(s, entry)
    ensures var e, answer := s.ledger[entry], if manual then Some(AnswerFailed) else None;
            var failed := System(s.(ledger := s.ledger[entry := e.(status := EntryStatus.Failed)]),
                                 [Actor(entry, Done(answer))]);
            && Happen(System(s, [Actor(entry, Failing(manual))]), Advance(0, intent)) == failed
            && Happen(failed, Advance(0, intent)) == failed
  {
    hide Step;
  }

  /** A webhook alone: a credit pays the row, a failure fails it, and neither answers. */
  lemma WebhookAlone(s: State, entry: nat, intent: Intent)
    requires Inv(s) && OpenEntry(s, entry)
    ensures var e := s.ledger[entry];
            var advance := Advance(0, intent);
            && e.wallet < |s.wallets|
            && Unfold(System(s, []), [Arrive(Actor(entry, Crediting(false))), advance, advance]) ==
               System(s.(wallets := Credited(s.wallets, e), ledger := s.ledger[entry := e.(status := Success)]),
                      [Actor(entry, Done(None))])
            && Unfold(System(s, []), [Arrive(Actor(entry, Failing(false))), advance]) ==
               System(s.(ledger := s.ledger[entry := e.(status := EntryStatus.Failed)]), [Actor(entry, Done(None))])
  {
    hide Step, Inv, Unfold, Act;
    EntryInRange(s, entry);
    FiveEvents(System(s, []), Arrive(Actor(entry, Crediting(false))), Advance(0, intent));
    FiveEvents(System(s, []), Arrive(Actor(entry, Failing(false))), Advance(0, intent));
    CreditAlone(s, entry, false, intent);
    FailAlone(s, entry, false, intent);
    assert Happen(System(s, []), Arrive(Actor(entry, Crediting(false)))) == System(s, [Actor(entry, Crediting(false))]);
    assert Happen(System(s, []), Arrive(Actor(entry, Failing(false)))) == System(s, [Actor(entry, Failing(false))]);
  }

  /** The wallets with an entry's amount paid to its wallet. */
  function Credited(wallets: seq<Wallet>, e: Entry): seq<Wallet>
    requires e.wallet < |wallets|
  {
    wallets[e.wallet := wallets[e.wallet].(balance := wallets[e.wallet].balance + e.amount)]
  }

  lemma EntryInRange(s: State, entry: nat)
    requires Inv(s) && entry < |s.ledger|
    ensures s.ledger[entry].wallet < |s.wallets|
  {
    assert s.ledger[entry] in s.ledger;
    assert InRange(s, s.ledger[entry]);
  }

  /** A customer's confirmation reads PENDING, a webhook then fails the row, Stripe reports success: the
      customer is told SUCCESS, the row stays FAILED and nothing is credited. */
  lemma ToldSuccessWhileFailed(pending: Entry)
    requires pending == Entry(0, TopUp, Credit, 100, EntryStatus.Pending, None, None, None)
    ensures var s := State([Wallet(Customer(7), 0, 0)], [pending], [], []);
            var sys := Unfold(System(s, [Actor(0, Starting), Actor(0, Failing(false))]),
                              [Advance(0, IntentOther), Advance(1, IntentOther), Advance(0, IntentSucceeded),
                               Advance(0, IntentOther), Advance(0, IntentOther)]);
            && sys.actors[0].control == Done(Some(AnswerSuccess))
            && sys.store.ledger[0].status.Failed?
            && sys.store.wallets == s.wallets
  {
    hide Step;
    var s := State([Wallet(Customer(7), 0, 0)], [pending], [], []);
    var failed := s.(ledger := [pending.(status := EntryStatus.Failed)]);
    var start := System(s, [Actor(0, Starting), Actor(0, Failing(false))]);
    assert Happen(start, Advance(0, IntentOther)) == System(s, [Actor(0, Asking), Actor(0, Failing(false))]);
    assert Happen(System(s, [Actor(0, Asking), Actor(0, Failing(false))]), Advance(1, IntentOther))
        == System(failed, [Actor(0, Asking), Actor(0, Done(None))]);
  }

  /** A customer's confirmation reads PENDING, a webhook then credits the row, Stripe's answer to the customer's
      call was still processing: the customer is told PENDING with the money in the wallet. */
  lemma ToldPendingWhileSuccess(pending: Entry)
    requires pending == Entry(0, TopUp, Credit, 100, EntryStatus.Pending, None, None, None)
    ensures var s := State([Wallet(Customer(7), 0, 0)], [pending], [], []);
            var sys := Unfold(System(s, [Actor(0, Starting), Actor(0, Crediting(false))]),
                              [Advance(0, IntentOther), Advance(1, IntentOther), Advance(1, IntentOther),
                               Advance(0, IntentOther)]);
            && sys.actors[0].control == Done(Some(AnswerPending))
            && sys.store.ledger[0].status.Success?
            && sys.store.wallets == [Wallet(Customer(7), 100, 0)]
  {
    hide Step;
    var s := State([Wallet(Customer(7), 0, 0)], [pending], [], []);
    var start := System(s, [Actor(0, Starting), Actor(0, Crediting(false))]);
    assert Happen(start, Advance(0, IntentOther)) == System(s, [Actor(0, Asking), Actor(0, Crediting(false))]);
    assert Happen(System(s, [Actor(0, Asking), Actor(0, Crediting(false))]), Advance(1, IntentOther))
        == System(s, [Actor(0, Asking), Actor(0, Flipping(false, 0, 100))]);
  }
}
