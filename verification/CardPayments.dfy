/** Card payments write an order's status without looking at it and charge no wallet. When does an order that
    one accepted still keep what holds of all others? */
module CardPayments {
  import opened Results
  import opened Money
  import opened Ledger
  import opened MoneyInvariant
  import opened Orders
  import opened OrderEntries
  import opened Conservation

  /** An order created, confirmed by card, shipped and delivered: its provider holds 500 earned, and nobody's
      wallet paid. */
  lemma DeliveredUnpaid()
    ensures var s := Run(EMPTY, [CreateOrderAction(7, 3, 500), CardAcceptAction(0)]
            + Deliver(Order(7, 3, 500, Accepted), 0));
            && s.wallets == [Wallet(Provider(3), 500, 0)]
            && s.ledger == [Entry(0, OrderEarning, Credit, 500, Success, Some(0), None, None)]
            && s.orders == [Order(7, 3, 500, Delivered)]
  {
    var s1 := Step(EMPTY, CreateOrderAction(7, 3, 500));
    var s2 := Step(s1, CardAcceptAction(0));
    var ship := UpdateOrderStatusAction(3, 0, Shipped, false);
    var deliver := UpdateOrderStatusAction(3, 0, Delivered, false);
    var s3 := Step(s2, ship);
    assert s2.orders == [Order(7, 3, 500, Accepted)];
    ShipIs(s2, 0);
    DeliverIs(s3, 0);
    var s4 := Step(s3, deliver);
    RunTwo(EMPTY, CreateOrderAction(7, 3, 500), CardAcceptAction(0));
    RunTwo(s2, ship, deliver);
    RunConcat(EMPTY, [CreateOrderAction(7, 3, 500), CardAcceptAction(0)], [ship, deliver]);
    assert s4.wallets == [Wallet(Provider(3), 500, 0)];
  }

  // ----- what the order can still do

  lemma {:induction false} RunKeepsId(s: State, actions: seq<Action>, o: nat)
    requires o < |s.orders|
    ensures o < |Run(s, actions).orders| && Run(s, actions).orders[o].total == s.orders[o].total
    decreases |actions|
  {
    hide Step;
    if actions != [] {
      StepMovesOrder(s, actions[0], o);
      RunKeepsId(Step(s, actions[0]), actions[1..], o);
    }
  }

  function Deliver(order: Order, o: nat): seq<Action> {
    [UpdateOrderStatusAction(order.provider, o, Shipped, false),
      UpdateOrderStatusAction(order.provider, o, Delivered, false)]
  }

  /** An accepted order can always be shipped and delivered, and is earned then. */
  lemma Delivers(s: State, o: nat)
    requires Inv(s) && o < |s.orders| && s.orders[o].status.Accepted?
    ensures var s' := Run(s, Deliver(s.orders[o], o));
            && Inv(s') && o < |s'.orders| && s'.orders[o] == s.orders[o].(status := Delivered)
            && Gains(RowsOf(s, o), RowsOf(s', o), OrderEarning, s.orders[o].total)
  {
    var order := s.orders[o];
    var ship := UpdateOrderStatusAction(order.provider, o, Shipped, false);
    var deliver := UpdateOrderStatusAction(order.provider, o, Delivered, false);
    var s1 := Step(s, ship);
    var s2 := Step(s1, deliver);
    ShipIs(s, o);
    DeliverIs(s1, o);
    AttemptKeeps(s, ship);
    AttemptKeeps(s1, deliver);
    SetOrderKeeps(s1, o, Delivered);
    EarnGains(SetOrder(s1, o, Delivered), o);
    RunTwo(s, ship, deliver);
    hide Step, EarnOrder, Inv, Gains, Rows, Run;
  }

  lemma RunTwo(s: State, a: Action, b: Action)
    ensures Run(s, [a, b]) == Step(Step(s, a), b)
  {
    hide Step;
    assert [a, b][1..] == [b] && [b][1..] == [];
    assert Run(Step(s, a), [b]) == Step(Step(s, a), b);
  }

  lemma ShipIs(s: State, o: nat)
    requires o < |s.orders| && s.orders[o].status.Accepted?
    ensures Step(s, UpdateOrderStatusAction(s.orders[o].provider, o, Shipped, false)) == SetOrder(s, o, Shipped)
  {
  }

  lemma DeliverIs(s: State, o: nat)
    requires o < |s.orders| && s.orders[o].status.Shipped?
    ensures Step(s, UpdateOrderStatusAction(s.orders[o].provider, o, Delivered, false)) ==
            EarnOrder(SetOrder(s, o, Delivered), s.orders[o].provider, o, s.orders[o].total)
    ensures EarnOrder(SetOrder(s, o, Delivered), s.orders[o].provider, o, s.orders[o].total).orders ==
            SetOrder(s, o, Delivered).orders
  {
    hide FindWallet, HasOrderEntry;
  }

  // ----- the held form

  ghost predicate HeldFormAt(s: State, o: nat) {
    o < |s.orders| && HeldForm(s, o)
  }

  lemma {:induction false} NothingBooked(s: State, o: nat, n: nat)
    requires Inv(s) && o < |s.orders| && s.orders[o].total == 0 && n <= |RowsOf(s, o)|
    ensures Total(RowsOf(s, o)[..n], OrderBook) == 0
  {
    var rows := RowsOf(s, o);
    if n > 0 {
      NothingBooked(s, o, n - 1);
      RowOfParty(s, o, n - 1);
      assert rows[..n][..n - 1] == rows[..n - 1];
    }
  }

  /** What an order has booked once it gains an entry that takes money from it. */
  lemma TakenFrom(rows: seq<Entry>, after: seq<Entry>, kind: Kind, amount: int)
    requires Gains(rows, after, kind, amount) && !HasRow(rows, kind) && (kind.OrderEarning? || kind.Refund?)
    ensures Total(after, OrderBook) == Total(rows, OrderBook) - amount
  {
    hide HasRow;
    assert after[..|rows|] == rows;
  }

  /** Delivered without having been held, and not earned before: more is given out than came in. */
  lemma DeliveryBreaks(s: State, o: nat)
    requires Inv(s) && o < |s.orders| && s.orders[o].status.Accepted? && s.orders[o].total > 0
    requires !HasKind(s.ledger, o, OrderEarning) && Net(s.ledger, OrderBook, o) == 0
    ensures !HeldFormAt(Run(s, Deliver(s.orders[o], o)), o)
  {
    var s' := Run(s, Deliver(s.orders[o], o));
    Delivers(s, o);
    hide Run, Inv, Rows, Total, HasRow, HasKind;
    HasKindInRows(s, o, OrderEarning);
    HasKindInRows(s', o, OrderEarning);
    TakenFrom(RowsOf(s, o), RowsOf(s', o), OrderEarning, s.orders[o].total);
    GainedRow(RowsOf(s, o), RowsOf(s', o), OrderEarning, s.orders[o].total);
  }

  lemma GainedRow(rows: seq<Entry>, after: seq<Entry>, kind: Kind, amount: int)
    requires Gains(rows, after, kind, amount)
    ensures HasRow(after, kind)
    ensures forall k :: HasRow(after, k) <==> k == kind || HasRow(rows, k)
  {
    forall k
      ensures HasRow(after, k) <==> k == kind || HasRow(rows, k)
    {
      if i :| 0 <= i < |rows| && rows[i].kind == k {
        assert after[i].kind == k;
      }
      if !HasRow(rows, kind) {
        assert after[|rows|].kind == kind;
      }
    }
  }

  function CancelForFree(order: Order, o: nat): seq<Action> {
    [CancelOrderAction(order.user, o, 0, 0.0)]
  }

  lemma CancelsForFree(s: State, o: nat)
    requires Inv(s) && o < |s.orders| && s.orders[o].status.Accepted? && s.orders[o].total > 0
    requires FindWallet(s.wallets, Customer(s.orders[o].user)).Some?
    ensures Gains(RowsOf(s, o), RowsOf(Run(s, CancelForFree(s.orders[o], o)), o), Refund, s.orders[o].total)
  {
    hide Run, Inv, RowsOf, Deduction, FindWallet, CancelOrder, Gains;
    var order := s.orders[o];
    RunOne(s, CancelOrderAction(order.user, o, 0, 0.0));
    FreeOfCharge(order.total);
    CancelAllowed(s, o);
    var mid := CancelGains(s, order.user, o, 0, 0.0);
  }

  lemma CancelAllowed(s: State, o: nat)
    requires o < |s.orders| && s.orders[o].status.Accepted?
    ensures CancelOrder(s, s.orders[o].user, o, 0, 0.0).Ok?
  {
  }

  /** Earned before and accepted again: a cancellation gives the total out a second time. */
  lemma CancellationBreaks(s: State, o: nat)
    requires Inv(s) && o < |s.orders| && s.orders[o].status.Accepted? && s.orders[o].total > 0
    requires Are(RowsOf(s, o), [OrderPayment, OrderEarning]) && Net(s.ledger, OrderBook, o) == 0
    ensures !HeldFormAt(Run(s, CancelForFree(s.orders[o], o)), o)
  {
    var s', rows := Run(s, CancelForFree(s.orders[o], o)), RowsOf(s, o);
    RowOfParty(s, o, 0);
    hide Run, Inv, Rows, Total, HasKind, Gains, CancelForFree;
    assert rows[0].kind == OrderPayment && rows[1].kind == OrderEarning;
    assert FindWallet(s.wallets, Customer(s.orders[o].user)).Some? by {
      assert s.wallets[rows[0].wallet].owner == Customer(s.orders[o].user);
    }
    CancelsForFree(s, o);
    TakenFrom(rows, RowsOf(s', o), Refund, s.orders[o].total);
    GainedRow(rows, RowsOf(s', o), Refund, s.orders[o].total);
    HasKindInRows(s', o, Refund);
  }

  lemma FreeOfCharge(total: nat)
    ensures Deduction(total, 0, 0.0) == 0
  {
  }

  /** A confirmed card payment leaves the held form intact whatever happens later if and only if it found the
      order held, or there is no money to it. */
  lemma HeldAfterCard(s: State, o: nat)
    requires Inv(s) && o < |s.orders| && OrderOk(s, o)
    ensures var s1 := Step(s, CardAcceptAction(o));
            (forall actions :: CardAcceptAction(o) !in actions ==> HeldFormAt(Run(s1, actions), o))
            <==> IsHeld(s, o) || s.orders[o].total == 0
  {
    var s1 := Step(s, CardAcceptAction(o));
    StepKeepsOrder(s, CardAcceptAction(o), o);
    AttemptKeeps(s, CardAcceptAction(o));
    OtherRows(s, CardAcceptAction(o), o);
    if IsHeld(s, o) || s.orders[o].total == 0 {
      forall actions | CardAcceptAction(o) !in actions
        ensures HeldFormAt(Run(s1, actions), o)
      {
        HeldLater(s1, actions, o);
      }
    } else {
      HeldIsBooked(s, o);
      HeldBreaks(s, s1, o);
    }
  }

  lemma HeldLater(s: State, actions: seq<Action>, o: nat)
    requires Inv(s) && o < |s.orders| && CardAcceptAction(o) !in actions
    requires OrderOk(s, o) || s.orders[o].total == 0
    ensures HeldFormAt(Run(s, actions), o)
  {
    var s' := Run(s, actions);
    RunKeeps(s, actions);
    RunKeepsId(s, actions, o);
    if OrderOk(s, o) {
      NoCardSafe(s, actions, o);
      RunKeepsOrder(s, actions, o);
      HeldIsBooked(s', o);
    } else {
      NothingBooked(s', o, |RowsOf(s', o)|);
      assert RowsOf(s', o)[..|RowsOf(s', o)|] == RowsOf(s', o);
    }
    hide Run, Inv, Rows, Total, IsHeld;
  }

  lemma HeldBreaks(s: State, s1: State, o: nat)
    requires Inv(s1) && o < |s.orders| && OrderOk(s, o) && !IsHeld(s, o) && s.orders[o].total > 0
    requires s1 == SetOrder(s, o, Accepted) && Net(s1.ledger, OrderBook, o) == 0
    ensures exists actions :: CardAcceptAction(o) !in actions && !HeldFormAt(Run(s1, actions), o)
  {
    HasKindInRows(s, o, OrderEarning);
    hide Inv, Rows, Net, HeldFormAt, HasKind, Run;
    var rows := RowsOf(s, o);
    if HasRow(rows, OrderEarning) {
      EarnedIsDelivered(s, o);
      CancellationBreaks(s1, o);
      assert CardAcceptAction(o) !in CancelForFree(s1.orders[o], o);
    } else {
      DeliveryBreaks(s1, o);
      assert CardAcceptAction(o) !in Deliver(s1.orders[o], o);
    }
  }

  lemma EarnedIsDelivered(s: State, o: nat)
    requires o < |s.orders| && OrderOk(s, o) && HasRow(RowsOf(s, o), OrderEarning)
    ensures Are(RowsOf(s, o), [OrderPayment, OrderEarning])
  {
    hide Rows;
  }

  // ----- delivered orders

  ghost predicate DeliveredFit(s: State, o: nat) {
    o < |s.orders| && (s.orders[o].status.Delivered? || s.orders[o].status.Completed? ==> PaidAndEarned(s, o))
  }

  /** Paid, perhaps earned, not given back; or cancelled. */
  predicate PaidFit(order: Order, rows: seq<Entry>) {
    match order.status
    case Pending => false
    case Rejected => false
    case Delivered => Are(rows, [OrderPayment, OrderEarning])
    case Completed => Are(rows, [OrderPayment, OrderEarning])
    case Cancelled => true
    case _ => Are(rows, [OrderPayment]) || Are(rows, [OrderPayment, OrderEarning])
  }

  ghost predicate PaidOk(s: State, o: nat) {
    o < |s.orders| && PaidFit(s.orders[o], RowsOf(s, o))
  }

  lemma NextPaid(order: Order, next: OrderStatus, rows: seq<Entry>, after: seq<Entry>)
    requires PaidFit(order, rows) && Allowed(order.status, next) && Adds(rows, after, next, order.total)
    ensures PaidFit(order.(status := next), after)
  {
    if Are(rows, [OrderPayment, OrderEarning]) {
      assert rows[1].kind == OrderEarning;
    } else if Are(rows, [OrderPayment]) {
      assert rows[0].kind == OrderPayment;
    }
  }

  lemma StepKeepsPaid(s: State, a: Action, o: nat)
    requires Inv(s) && PaidOk(s, o) && a != CardAcceptAction(o)
    ensures PaidOk(Step(s, a), o)
  {
    StepMovesOrder(s, a, o);
    hide UpdateOrderStatus, CancelOrder, RowsOf, Inv, Allowed, Adds;
    if !WorksOn(a, o) {
      OtherRows(s, a, o);
    } else if a.UpdateOrderStatusAction? {
      UpdateMovesOrder(s, a.provider, o, a.next, a.hasReason);
      UpdateGains(s, a.provider, o, a.next, a.hasReason);
      if Attempt(s, a).Ok? {
        NextPaid(s.orders[o], a.next, RowsOf(s, o), RowsOf(Step(s, a), o));
      }
    } else {
      CancelMovesOrder(s, a.user, o, a.percent, a.drift);
    }
  }

  lemma {:induction false} RunKeepsPaid(s: State, actions: seq<Action>, o: nat)
    requires Inv(s) && PaidOk(s, o) && CardAcceptAction(o) !in actions
    ensures PaidOk(Run(s, actions), o)
    decreases |actions|
  {
    hide Inv, Attempt, PaidOk;
    if actions != [] {
      StepKeepsPaid(s, actions[0], o);
      AttemptKeeps(s, actions[0]);
      RunKeepsPaid(Step(s, actions[0]), actions[1..], o);
    }
  }

  /** Paid from the wallet, and nothing given back. */
  predicate PaidByWallet(s: State, o: nat) {
    && HasKind(s.ledger, o, OrderPayment)
    && !HasKind(s.ledger, o, Refund)
    && !HasKind(s.ledger, o, PlatformFee)
  }

  /** After a confirmed card payment the order will, whatever happens later, be delivered only paid and earned
      exactly once if and only if the wallet had paid for it and nothing had been given back. */
  lemma DeliveredAfterCard(s: State, o: nat)
    requires Inv(s) && o < |s.orders| && OrderOk(s, o)
    ensures var s1 := Step(s, CardAcceptAction(o));
            (forall actions :: CardAcceptAction(o) !in actions ==> DeliveredFit(Run(s1, actions), o))
            <==> PaidByWallet(s, o)
  {
    var s1 := Step(s, CardAcceptAction(o));
    AttemptKeeps(s, CardAcceptAction(o));
    OtherRows(s, CardAcceptAction(o), o);
    if PaidByWallet(s, o) {
      PaidRows(s, o);
      forall actions | CardAcceptAction(o) !in actions
        ensures DeliveredFit(Run(s1, actions), o)
      {
        RunKeepsPaid(s1, actions, o);
        RunKeeps(s1, actions);
        if Are(RowsOf(Run(s1, actions), o), [OrderPayment, OrderEarning]) {
          RowsPaidAndEarned(Run(s1, actions), o);
        }
      }
    } else {
      UnpaidBreaks(s1, o);
      assert CardAcceptAction(o) !in Deliver(s1.orders[o], o);
    }
    hide Inv, RowsOf, Run, PaidAndEarned;
  }

  lemma PaidRows(s: State, o: nat)
    requires o < |s.orders| && OrderOk(s, o) && PaidByWallet(s, o)
    ensures Are(RowsOf(s, o), [OrderPayment]) || Are(RowsOf(s, o), [OrderPayment, OrderEarning])
  {
    HasKindInRows(s, o, OrderPayment);
    HasKindInRows(s, o, Refund);
    HasKindInRows(s, o, PlatformFee);
    hide Rows, HasKind;
    var rows := RowsOf(s, o);
    if |rows| > 1 {
      assert HasRow(rows, rows[1].kind);
    }
  }

  lemma UnpaidBreaks(s: State, o: nat)
    requires Inv(s) && o < |s.orders| && s.orders[o].status.Accepted? && !PaidByWallet(s, o)
    ensures !DeliveredFit(Run(s, Deliver(s.orders[o], o)), o)
  {
    var s' := Run(s, Deliver(s.orders[o], o));
    Delivers(s, o);
    GainedRow(RowsOf(s, o), RowsOf(s', o), OrderEarning, s.orders[o].total);
    forall kind
      ensures HasKind(s'.ledger, o, kind) <==> kind == OrderEarning || HasKind(s.ledger, o, kind)
    {
      HasKindInRows(s, o, kind);
      HasKindInRows(s', o, kind);
    }
    hide Run, Inv, RowsOf, CountKind, Gains;
    if !HasKind(s'.ledger, o, OrderPayment) {
      NotCounted(s'.ledger, o, OrderPayment);
    }
  }

  lemma {:induction false} NotCounted(ledger: seq<Entry>, o: nat, kind: Kind)
    requires !HasKind(ledger, o, kind)
    ensures CountKind(ledger, o, kind) == 0
  {
    if ledger != [] {
      var init, last := ledger[..|ledger| - 1], ledger[|ledger| - 1];
      assert last in ledger && forall e :: e in init ==> e in ledger;
      NotCounted(init, o, kind);
    }
  }
}
