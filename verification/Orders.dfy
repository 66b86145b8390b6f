/** The life of one order: which way its status moves, and how often. */
module Orders {
  import opened Results
  import opened Money
  import opened Ledger
  import opened MoneyInvariant

  /** Progress of an order; the three final statuses come last. */
  function Rank(status: OrderStatus): nat {
    match status
    case Pending => 0
    case Accepted => 1
    case Processing => 2
    case Shipped => 3
    case Delivered => 4
    case _ => 5
  }

  /** Writes to an order's status that do not look at it: a settled refund or a failed card payment. */
  predicate CancelsBlindly(a: Action, o: nat) {
    a == RefundOrderAction(o) || a == CardFailAction(o)
  }

  /** Actions that look at the order's status and then change it. */
  predicate WorksOn(a: Action, o: nat) {
    (a.UpdateOrderStatusAction? || a.CancelOrderAction?) && a.order == o
  }

  /** No step touches an order other than along an allowed transition, except that settled refunds and card
      payments write its status whatever it is. */
  lemma StepMovesOrder(s: State, a: Action, o: nat)
    requires o < |s.orders|
    ensures var s' := Step(s, a);
            && o < |s'.orders|
            && s'.orders[o] == s.orders[o].(status := s'.orders[o].status)
            && (|| s'.orders[o].status == s.orders[o].status
                || (WorksOn(a, o) && Allowed(s.orders[o].status, s'.orders[o].status))
                || (CancelsBlindly(a, o) && s'.orders[o].status.Cancelled?)
                || (a == CardAcceptAction(o) && s'.orders[o].status.Accepted?))
  {
    hide UpdateOrderStatus, CancelOrder, FindWallet, VoidEntries, HasRewardEntry;
    if a.UpdateOrderStatusAction? {
      UpdateMovesOrder(s, a.provider, a.order, a.next, a.hasReason);
    } else if a.CancelOrderAction? {
      CancelMovesOrder(s, a.user, a.order, a.percent, a.drift);
    }
  }

  lemma UpdateMovesOrder(s: State, provider: nat, order: nat, next: OrderStatus, hasReason: bool)
    ensures var r := UpdateOrderStatus(s, provider, order, next, hasReason);
            r.Ok? ==>
              && order < |s.orders| && Allowed(s.orders[order].status, next)
              && r.value.orders == s.orders[order := s.orders[order].(status := next)]
  {
  }

  lemma CancelMovesOrder(s: State, user: nat, order: nat, percent: Percent, drift: Drift)
    ensures var r := CancelOrder(s, user, order, percent, drift);
            r.Ok? ==>
              && order < |s.orders| && Allowed(s.orders[order].status, OrderStatus.Cancelled)
              && r.value.orders == s.orders[order := s.orders[order].(status := OrderStatus.Cancelled)]
  {
  }

  /** How many steps of a run change an order's status. */
  function Changes(s: State, actions: seq<Action>, o: nat): nat
    requires o < |s.orders|
    decreases |actions|
  {
    if actions == [] then 0
    else
      StepMovesOrder(s, actions[0], o);
      var s1 := Step(s, actions[0]);
      Changes(s1, actions[1..], o) + if s1.orders[o].status != s.orders[o].status then 1 else 0
  }

  /** How many confirmed card payments of an order a run holds. */
  function CountAccepts(actions: seq<Action>, o: nat): nat {
    if actions == [] then 0 else CountAccepts(actions[1..], o) + if actions[0] == CardAcceptAction(o) then 1 else 0
  }

  predicate CancelledBlindly(actions: seq<Action>, o: nat) {
    exists i :: 0 <= i < |actions| && CancelsBlindly(actions[i], o)
  }

  /** Changes an order still has before it: the ranks above its own, and a cancellation at the end. */
  function Left(status: OrderStatus, blindly: bool): nat {
    if status.Cancelled? then 0 else 5 - Rank(status) + if blindly then 1 else 0
  }

  /** From any state on, an order changes status at most as often as its rank can still rise, once more if a
      refund or a failed card payment cancels it blindly; each confirmed card payment adds as many as a newly
      accepted order has. */
  lemma {:induction false} ChangesBounded(s: State, actions: seq<Action>, o: nat)
    requires o < |s.orders|
    ensures var blindly := CancelledBlindly(actions, o);
            Changes(s, actions, o) <=
            Left(s.orders[o].status, blindly) + CountAccepts(actions, o) * (1 + Left(Accepted, blindly))
    decreases |actions|
  {
    hide Step;
    if actions != [] {
      var a, rest := actions[0], actions[1..];
      StepMovesOrder(s, a, o);
      ChangesBounded(Step(s, a), rest, o);
      StepLeft(s, a, rest, o);
    }
  }

  lemma StepLeft(s: State, a: Action, rest: seq<Action>, o: nat)
    requires o < |s.orders| && o < |Step(s, a).orders|
    requires var now, next := s.orders[o].status, Step(s, a).orders[o].status;
             next == now || Allowed(now, next) || (CancelsBlindly(a, o) && next.Cancelled?)
             || (a == CardAcceptAction(o) && next.Accepted?)
    ensures var blindly, before := CancelledBlindly([a] + rest, o), CancelledBlindly(rest, o);
            var now, next := s.orders[o].status, Step(s, a).orders[o].status;
            && (before ==> blindly)
            && Left(next, blindly) + (if next != now then 1 else 0) <=
               Left(now, blindly) + if a == CardAcceptAction(o) then 1 + Left(Accepted, blindly) else 0
  {
    hide Step;
    var all := [a] + rest;
    if i :| 0 <= i < |rest| && CancelsBlindly(rest[i], o) {
      assert CancelsBlindly(all[i + 1], o);
    }
    if CancelsBlindly(a, o) {
      assert CancelsBlindly(all[0], o);
    }
  }

  /** A new order changes status at most five times unless a refund or a card payment writes it blindly. */
  lemma AtMostFiveChanges(s: State, user: nat, provider: nat, total: nat, actions: seq<Action>)
    requires var o := |s.orders|; CountAccepts(actions, o) == 0 && !CancelledBlindly(actions, o)
    ensures Changes(CreateOrder(s, user, provider, total), actions, |s.orders|) <= 5
  {
    ChangesBounded(CreateOrder(s, user, provider, total), actions, |s.orders|);
  }

  /** A confirmed card payment takes a completed order back to accepted. */
  lemma CompletedAcceptedAgain(s: State, o: nat)
    requires o < |s.orders| && s.orders[o].status.Completed?
    ensures Step(s, CardAcceptAction(o)).orders[o].status.Accepted?
  {
  }
}
