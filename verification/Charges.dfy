/** What accepting an order takes from its customer, and what cancelling it gives back. */
module Charges {
  import opened Results
  import opened Money
  import opened Ledger
  import opened MoneyInvariant
  import opened Orders
  import opened OrderEntries

  // ----- pending orders

  /** An order that is pending, or not there yet, has no entry. */
  ghost predicate PendingBare(s: State, o: nat) {
    o >= |s.orders| || s.orders[o].status.Pending? ==> RowsOf(s, o) == []
  }

  lemma StepPendingBare(s: State, a: Action, o: nat)
    requires Inv(s) && PendingBare(s, o)
    ensures PendingBare(Step(s, a), o)
  {
    if o >= |s.orders| {
      NoRowsAhead(s, a, o);
    } else {
      StepMovesOrder(s, a, o);
      if !WorksOn(a, o) {
        OtherRows(s, a, o);
      } else if a.UpdateOrderStatusAction? {
        UpdateMovesOrder(s, a.provider, a.order, a.next, a.hasReason);
      } else {
        CancelMovesOrder(s, a.user, a.order, a.percent, a.drift);
      }
    }
    hide UpdateOrderStatus, CancelOrder, RowsOf, Inv;
  }

  lemma {:induction false} RunPendingBare(s: State, actions: seq<Action>, o: nat)
    requires Inv(s) && PendingBare(s, o)
    ensures PendingBare(Run(s, actions), o)
    decreases |actions|
  {
    hide Inv, Attempt, PendingBare;
    if actions != [] {
      StepPendingBare(s, actions[0], o);
      AttemptKeeps(s, actions[0]);
      RunPendingBare(Step(s, actions[0]), actions[1..], o);
    }
  }

  lemma ReachablePending(s: State, o: nat)
    requires Reachable(s)
    ensures PendingBare(s, o)
  {
    hide Run;
    EmptyOk();
    var actions :| s == Run(EMPTY, actions);
    RunPendingBare(EMPTY, actions, o);
  }

  // ----- acceptance

  /** Accepting a pending order in a reachable state charges its customer, gift credits first, exactly when
      there is a wallet that covers the total; otherwise nothing changes and the order stays pending. */
  lemma AcceptanceCharges(s: State, o: nat, hasReason: bool)
    requires Reachable(s) && o < |s.orders| && s.orders[o].status.Pending?
    ensures var order := s.orders[o];
            var s' := Step(s, UpdateOrderStatusAction(order.provider, o, Accepted, hasReason));
            var w := FindWallet(s.wallets, Customer(order.user));
            if w.Some? && s.wallets[w.value].giftCredits + s.wallets[w.value].balance >= order.total then
              var before, after := s.wallets[w.value], s'.wallets[w.value];
              && s'.orders == s.orders[o := order.(status := Accepted)]
              && s'.wallets == s.wallets[w.value := after]
              && before.giftCredits + before.balance - order.total == after.giftCredits + after.balance
              && after.giftCredits >= 0 && after.balance >= 0
              && (after.giftCredits > 0 ==> after.balance == before.balance)
              && |s'.ledger| == |s.ledger| + 1 && s'.ledger[..|s.ledger|] == s.ledger
              && IsPayment(s', o, s'.ledger[|s.ledger|])
            else s' == s
  {
    hide Reachable, RowsOf, Net, HasOrderEntry, EntriesOk, PayoutOk, FindWallet, Step;
    ReachableOk(s);
    ReachablePending(s, o);
    AcceptIs(s, o, hasReason);
    var order, w := s.orders[o], FindWallet(s.wallets, Customer(s.orders[o].user));
    if w.Some? {
      assert WalletOk(s, w.value);
      EntryIsRow(s, w.value, o, OrderPayment);
      ChargeIs(s, order.user, o, order.total, w.value);
    }
    hide InvExcept, DebitCustomer;
  }

  lemma AcceptIs(s: State, o: nat, hasReason: bool)
    requires o < |s.orders| && s.orders[o].status.Pending?
    ensures var order := s.orders[o];
            var charged := DebitCustomer(s, order.user, o, order.total);
            Step(s, UpdateOrderStatusAction(order.provider, o, Accepted, hasReason)) ==
            if charged.Ok? then SetOrder(charged.value, o, Accepted) else s
  {
    hide DebitCustomer, EarnOrder;
  }

  /** A charge not made before. */
  lemma ChargeIs(s: State, user: nat, o: nat, amount: nat, w: nat)
    requires FindWallet(s.wallets, Customer(user)) == Some(w) && !HasOrderEntry(s.ledger, w, o, OrderPayment)
    requires w < |s.wallets| && s.wallets[w].giftCredits >= 0 && s.wallets[w].balance >= 0
    ensures var r, wallet := DebitCustomer(s, user, o, amount), s.wallets[w];
            && (r.Ok? <==> wallet.giftCredits + wallet.balance >= amount)
            && (r.Ok? ==>
                  && r.value.ledger == s.ledger + [Entry(w, OrderPayment, Debit, amount, Success, Some(o), None, None)]
                  && r.value.wallets ==
                     s.wallets[w :=
                       if amount <= wallet.giftCredits then wallet.(giftCredits := wallet.giftCredits - amount)
                       else wallet.(giftCredits := 0, balance := wallet.giftCredits + wallet.balance - amount)])
  {
    hide FindWallet, HasOrderEntry;
  }

  // ----- cancellation

  function Gap(a: int, b: int): nat {
    if a < b then b - a else a - b
  }

  /** Whatever floating point loses on the way, the deduction is a whole number of cents nearest to its
      percentage; only between two equally near ones does it decide. */
  lemma DeductionIsNearest(total: nat, percent: Percent, drift: Drift, m: int)
    ensures Gap(Deduction(total, percent, drift) * 10000, total * percent) <= Gap(m * 10000, total * percent)
  {
    var d, exact := Deduction(total, percent, drift), total * percent;
    DeductionNear(total, percent, drift);
    hide Deduction;
    assert Gap(d * 10000, exact) <= 5000;
  }

  lemma DeductionNear(total: nat, percent: Percent, drift: Drift)
    ensures Gap(Deduction(total, percent, drift) * 10000, total * percent) <= 5000
  {
  }

  /** What the platform's wallet holds. */
  function PlatformBalance(wallets: seq<Wallet>): int {
    match FindWallet(wallets, Platform)
    case None => 0
    case Some(w) => wallets[w].balance
  }

  /** The order is cancelled, the deduction is the platform's, the rest of the total the customer's in cash;
      no other wallet is touched. */
  ghost predicate SplitUp(s: State, s': State, o: nat, d: nat)
    requires o < |s.orders|
  {
    var order, found := s.orders[o], FindWallet(s.wallets, Customer(s.orders[o].user));
    && s'.orders == s.orders[o := order.(status := OrderStatus.Cancelled)]
    && found.Some? && found.value < |s'.wallets|
    && s'.wallets[found.value] == s.wallets[found.value].(balance := s.wallets[found.value].balance + (order.total - d))
    && PlatformBalance(s'.wallets) == PlatformBalance(s.wallets) + d
    && |s.wallets| <= |s'.wallets|
    && (forall i :: 0 <= i < |s.wallets| && i != found.value && !s.wallets[i].owner.Platform? ==>
          s'.wallets[i] == s.wallets[i])
  }

  /** The customer has a wallet, and neither part has been given back before; a part of nothing counts as not. */
  predicate CanSplit(s: State, o: nat, d: nat)
    requires o < |s.orders|
  {
    && FindWallet(s.wallets, Customer(s.orders[o].user)).Some?
    && (s.orders[o].total > d ==> !HasKind(s.ledger, o, Refund))
    && (d > 0 ==> !HasKind(s.ledger, o, PlatformFee))
  }

  /** Cancelling an accepted order in a reachable state gives back its whole total, in cash whatever it was
      paid with, the deduction to the platform and the rest to the customer, if and only if the customer has a
      wallet and nothing was given back before. */
  lemma CancellationSplits(s: State, o: nat, percent: Percent, drift: Drift)
    requires Reachable(s) && o < |s.orders| && (s.orders[o].status.Accepted? || s.orders[o].status.Processing?)
    ensures var d := Deduction(s.orders[o].total, percent, drift);
            SplitUp(s, Step(s, CancelOrderAction(s.orders[o].user, o, percent, drift)), o, d) <==> CanSplit(s, o, d)
  {
    hide Reachable, Inv, SplitUp, CanSplit, Step, Deduction;
    ReachableOk(s);
    CancelIs(s, o, percent, drift);
    CancelSplits(s, o, Deduction(s.orders[o].total, percent, drift));
  }

  /** An order paid from the wallet and still held is given back in full. */
  lemma HeldCanSplit(s: State, o: nat, d: nat)
    requires Inv(s) && o < |s.orders| && IsHeld(s, o)
    ensures CanSplit(s, o, d)
  {
    var e :| e in s.ledger && e.orderId == Some(o) && e.kind == OrderPayment;
    assert InRange(s, e);
    UniqueWallet(s, Customer(s.orders[o].user), e.wallet);
  }

  lemma CancelIs(s: State, o: nat, percent: Percent, drift: Drift)
    requires o < |s.orders| && (s.orders[o].status.Accepted? || s.orders[o].status.Processing?)
    ensures var order, d := s.orders[o], Deduction(s.orders[o].total, percent, drift);
            Step(s, CancelOrderAction(order.user, o, percent, drift)) ==
            SetOrder(CollectFee(CompensateCustomer(s, order.user, o, order.total - d), o, d), o, OrderStatus.Cancelled)
  {
    hide Deduction, CompensateCustomer, CollectFee;
  }

  lemma CancelSplits(s: State, o: nat, d: nat)
    requires Inv(s) && o < |s.orders| && d <= s.orders[o].total
    ensures var order := s.orders[o];
            var s' := SetOrder(CollectFee(CompensateCustomer(s, order.user, o, order.total - d), o, d), o,
              OrderStatus.Cancelled);
            SplitUp(s, s', o, d) <==> CanSplit(s, o, d)
  {
    hide FindWallet, CompensateCustomer, CollectFee, HasKind, Inv;
    var found := FindWallet(s.wallets, Customer(s.orders[o].user));
    if found.Some? {
      CompensateMoves(s, o, s.orders[o].total - d, found.value);
      var s1 := CompensateCustomer(s, s.orders[o].user, o, s.orders[o].total - d);
      CompensateKeeps(s, o, s.orders[o].total - d);
      CollectMoves(s1, o, d);
    }
  }

  lemma CompensateMoves(s: State, o: nat, amount: nat, w: nat)
    requires Inv(s) && o < |s.orders| && FindWallet(s.wallets, Customer(s.orders[o].user)) == Some(w)
    ensures var s1 := CompensateCustomer(s, s.orders[o].user, o, amount);
            var paid := if HasKind(s.ledger, o, Refund) then 0 else amount;
            && w < |s.wallets| && s1.wallets == s.wallets[w := s.wallets[w].(balance := s.wallets[w].balance + paid)]
            && PlatformBalance(s1.wallets) == PlatformBalance(s.wallets)
            && (HasKind(s1.ledger, o, PlatformFee) <==> HasKind(s.ledger, o, PlatformFee))
  {
    hide Inv, RowsOf, HasRow, HasOrderEntry;
    var s1 := CompensateCustomer(s, s.orders[o].user, o, amount);
    EntryIsRow(s, w, o, Refund);
    HasKindInRows(s, o, Refund);
    SamePlatform(s.wallets, w, s1.wallets[w]);
    hide FindWallet, PlatformBalance;
    assert s.wallets[w := s.wallets[w]] == s.wallets;
    if e :| e in s.ledger && e.orderId == Some(o) && e.kind == PlatformFee {
      assert e in s1.ledger;
    }
  }

  lemma {:induction false} SamePlatform(wallets: seq<Wallet>, w: nat, changed: Wallet)
    requires w < |wallets| && changed.owner == wallets[w].owner && !changed.owner.Platform?
    ensures FindWallet(wallets[w := changed], Platform) == FindWallet(wallets, Platform)
    ensures PlatformBalance(wallets[w := changed]) == PlatformBalance(wallets)
  {
    var n := |wallets| - 1;
    if w < n && wallets[n].owner != Platform {
      assert wallets[w := changed][..n] == wallets[..n][w := changed];
      SamePlatform(wallets[..n], w, changed);
    } else {
      assert w == n ==> wallets[w := changed][..n] == wallets[..n];
    }
  }

  lemma CollectMoves(s: State, o: nat, amount: nat)
    requires Inv(s) && o < |s.orders|
    ensures var s1 := CollectFee(s, o, amount);
            var paid := if HasKind(s.ledger, o, PlatformFee) then 0 else amount;
            && s1.orders == s.orders
            && PlatformBalance(s1.wallets) == PlatformBalance(s.wallets) + paid
            && |s.wallets| <= |s1.wallets|
            && (forall i :: 0 <= i < |s.wallets| && !s.wallets[i].owner.Platform? ==> s1.wallets[i] == s.wallets[i])
  {
    if amount > 0 {
      InvIs(s);
      EnsureWalletKeeps(s, Platform, {});
      var (s0, w) := EnsureWallet(s, Platform);
      InvIs(s0);
      hide InvExcept, RowsOf, HasRow, HasOrderEntry;
      EntryIsRow(s0, w, o, PlatformFee);
      HasKindInRows(s0, o, PlatformFee);
      var s1 := CollectFee(s, o, amount);
      assert s0.ledger == s.ledger && s1.wallets[w].owner == Platform;
      assert OwnersDistinct(s0.wallets) by { InvOwners(s0); }
      PlatformAt(s1.wallets, w);
      PlatformAt(s0.wallets, w);
    }
  }

  lemma InvOwners(s: State)
    requires Inv(s)
    ensures OwnersDistinct(s.wallets)
  {
  }

  lemma PlatformAt(wallets: seq<Wallet>, w: nat)
    requires OwnersDistinct(wallets) && w < |wallets| && wallets[w].owner == Platform
    ensures FindWallet(wallets, Platform) == Some(w) && PlatformBalance(wallets) == wallets[w].balance
  {
  }
}
