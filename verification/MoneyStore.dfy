/** The tables themselves, updated in place by the services and repositories that move money. Each method
    runs its writes in the source's order and is proved to take the rows exactly where the corresponding
    function of `Money` says; those that are whole actions keep the invariant of every run. */
module MoneyStore {
  import opened Results
  import opened Money
  import opened MoneyInvariant
  import opened Payouts

  class Store {
    var wallets: seq<Wallet>
    var ledger: seq<Entry>
    var orders: seq<Order>
    var payouts: seq<Payout>

    /** Payments of top-ups by user and idempotency key, and whether their Stripe intent is known. */
    var topUpPayments: map<(nat, nat), bool>

    ghost function View(): State
      reads this
    {
      State(wallets, ledger, orders, payouts)
    }

    /** What every reachable state satisfies. */
    ghost predicate Valid()
      reads this
    {
      Inv(View())
    }

    constructor ()
      ensures View() == EMPTY && Valid() && topUpPayments == map[]
    {
      wallets, ledger, orders, payouts, topUpPayments := [], [], [], [], map[];
      new;
      EmptyOk();
    }

    // ----- single writes

    method GetOrCreateWallet(owner: Owner) returns (w: nat)
      modifies this`wallets
      ensures (View(), w) == EnsureWallet(old(View()), owner)
    {
      match FindWallet(wallets, owner)
      case Some(found) => w := found;
      case None =>
        w := |wallets|;
        wallets := wallets + [Wallet(owner, 0, 0)];
    }

    method IncrementWallet(w: nat, balance: int, giftCredits: int)
      requires w < |wallets|
      modifies this`wallets
      ensures View() == Adjust(old(View()), w, balance, giftCredits)
    {
      var wallet := wallets[w];
      wallets := wallets[w := Wallet(wallet.owner, wallet.balance + balance, wallet.giftCredits + giftCredits)];
    }

    method CreateLedgerEntry(e: Entry)
      modifies this`ledger
      ensures View() == Record(old(View()), e)
    {
      ledger := ledger + [e];
    }

    method SetOrderStatus(order: nat, status: OrderStatus)
      requires order < |orders|
      modifies this`orders
      ensures View() == SetOrder(old(View()), order, status)
    {
      orders := orders[order := orders[order].(status := status)];
    }

    method CreateOrder(user: nat, provider: nat, total: nat)
      modifies this`orders
      ensures View() == Step(old(View()), CreateOrderAction(user, provider, total))
      ensures old(Valid()) ==> Valid()
    {
      StepKeeps(View(), CreateOrderAction(user, provider, total));
      orders := orders + [Order(user, provider, total, OrderStatus.Pending)];
    }

    // ----- customer wallet

    /** A key already used replays its payment; one whose payment never got an intent leaves another pending
        entry behind and throws, because keys are unique. */
    method AddFunds(user: nat, key: nat, amount: nat, stripeAnswers: bool) returns (r: Result<()>)
      modifies this
      ensures var known := (user, key) in old(topUpPayments);
              if known && old(topUpPayments)[(user, key)] then
                r.Ok? && View() == EnsureWallet(old(View()), Customer(user)).0 && topUpPayments == old(topUpPayments)
              else
                && View() == Step(old(View()), OpenTopUpAction(user, amount))
                && (known ==> topUpPayments == old(topUpPayments))
                && (!known ==> topUpPayments == old(topUpPayments)[(user, key) := stripeAnswers])
                && (r.Ok? <==> !known && stripeAnswers)
      ensures old(Valid()) ==> Valid()
    {
      hide Inv;
      EnsureKeeps(View(), Customer(user));
      StepKeeps(View(), OpenTopUpAction(user, amount));
      var w := GetOrCreateWallet(Customer(user));
      if (user, key) in topUpPayments && topUpPayments[(user, key)] {
        return Ok(());
      }
      CreateLedgerEntry(Entry(w, TopUp, Credit, amount, EntryStatus.Pending, None, None, None));
      if (user, key) in topUpPayments {
        return Result.Failed("Unique constraint failed on idempotency_key");
      }
      topUpPayments := topUpPayments[(user, key) := false];
      if !stripeAnswers {
        return Result.Failed("Stripe is unavailable");
      }
      topUpPayments := topUpPayments[(user, key) := true];
      return Ok(());
    }

    /** Only the caller that wins the flip credits the wallet, with the wallet and amount it was given. When
        they are the entry's own, this is the completing action. */
    method CompleteWalletTopUp(entry: nat, w: nat, amount: int) returns (credited: bool)
      requires w < |wallets|
      modifies this
      ensures credited <==> entry < |old(ledger)| && old(ledger)[entry].status == EntryStatus.Pending
      ensures View() == if credited then Adjust(SetEntry(old(View()), entry, Success), w, amount, 0) else old(View())
      ensures entry < |old(ledger)| && old(ledger)[entry].kind.TopUp?
              && old(ledger)[entry].wallet == w && old(ledger)[entry].amount == amount ==>
                View() == Step(old(View()), CompleteTopUpAction(entry)) && (old(Valid()) ==> Valid())
    {
      hide Inv;
      StepKeeps(View(), CompleteTopUpAction(entry));
      if entry >= |ledger| || ledger[entry].status != EntryStatus.Pending {
        return false;
      }
      ledger := ledger[entry := ledger[entry].(status := Success)];
      IncrementWallet(w, amount, 0);
      return true;
    }

    /** Fails a pending entry of the user's own wallet; any other, or an unknown one, stays as it is. */
    method UpdateWalletTopUpStatus(user: nat, entry: nat)
      modifies this`ledger
      ensures var s := old(View());
              var own := entry < |s.ledger| && s.ledger[entry].wallet < |s.wallets|
                         && s.wallets[s.ledger[entry].wallet].owner == Customer(user);
              && View() == (if own && s.ledger[entry].status == EntryStatus.Pending
                            then SetEntry(s, entry, EntryStatus.Failed) else s)
              && (own && s.ledger[entry].kind.TopUp? ==>
                    View() == Step(s, FailTopUpAction(entry)) && (old(Valid()) ==> Valid()))
    {
      hide Inv;
      StepKeeps(View(), FailTopUpAction(entry));
      if entry < |ledger| && ledger[entry].wallet < |wallets| && wallets[ledger[entry].wallet].owner == Customer(user)
         && ledger[entry].status == EntryStatus.Pending
      {
        ledger := ledger[entry := ledger[entry].(status := EntryStatus.Failed)];
      }
    }

    method CreditRewardRedemption(user: nat, reward: nat, amount: nat)
      modifies this
      ensures View() == Step(old(View()), RedeemRewardAction(user, reward, amount))
      ensures old(Valid()) ==> Valid()
    {
      hide Inv;
      StepKeeps(View(), RedeemRewardAction(user, reward, amount));
      var w := GetOrCreateWallet(Customer(user));
      if HasRewardEntry(ledger, w, reward) {
        return;
      }
      CreateLedgerEntry(Entry(w, RewardCredit, Credit, amount, Success, None, None, Some(reward)));
      IncrementWallet(w, 0, amount);
    }

    // ----- provider orders

    method DebitCustomerWalletForOrder(user: nat, order: nat, amount: nat) returns (r: Result<()>)
      modifies this
      ensures match DebitCustomer(old(View()), user, order, amount)
              case Ok(next) => r.Ok? && View() == next
              case Failed(message) => r == Result.Failed(message) && View() == old(View())
    {
      var found := FindWallet(wallets, Customer(user));
      if found.None? {
        return Result.Failed("Customer wallet not found. The customer must top up before this order can be accepted.");
      }
      var w := found.value;
      if HasOrderEntry(ledger, w, order, OrderPayment) {
        return Ok(());
      }
      var giftCredits, balance := wallets[w].giftCredits, wallets[w].balance;
      if giftCredits + balance < amount {
        return Result.Failed("Customer has insufficient wallet balance to pay for this order.");
      }
      var giftCreditsUsed := Min(giftCredits, amount);
      var balanceUsed := amount - giftCreditsUsed;
      CreateLedgerEntry(Entry(w, OrderPayment, Debit, amount, Success, Some(order), None, None));
      IncrementWallet(w, -balanceUsed, -giftCreditsUsed);
      return Ok(());
    }

    method UpsertOrderEarningLedger(provider: nat, order: nat, amount: nat)
      modifies this
      ensures View() == EarnOrder(old(View()), provider, order, amount)
    {
      var w := GetOrCreateWallet(Provider(provider));
      if HasOrderEntry(ledger, w, order, OrderEarning) {
        return;
      }
      CreateLedgerEntry(Entry(w, OrderEarning, Credit, amount, Success, Some(order), None, None));
      IncrementWallet(w, amount, 0);
    }

    /** The order update runs in one transaction: when the debit throws, nothing is written. */
    method UpdateOrderStatus(provider: nat, order: nat, next: OrderStatus,
        hasReason: bool) returns (r: Result<OrderStatus>)
      modifies this
      ensures View() == Step(old(View()), UpdateOrderStatusAction(provider, order, next, hasReason))
      ensures match Money.UpdateOrderStatus(old(View()), provider, order, next, hasReason)
              case Ok(_) => r == Ok(next)
              case Failed(message) => r == Result.Failed(message)
      ensures old(Valid()) ==> Valid()
    {
      hide Inv;
      StepKeeps(View(), UpdateOrderStatusAction(provider, order, next, hasReason));
      if order >= |orders| || orders[order].provider != provider {
        return Result.Failed("Provider order not found");
      }
      var row := orders[order];
      if row.status.Cancelled? || row.status.Rejected? {
        return Result.Failed("Cannot update a closed order");
      }
      if !Allowed(row.status, next) {
        return Result.Failed("Invalid status transition");
      }
      if next.Rejected? && !hasReason {
        return Result.Failed("Reason is required when rejecting an order");
      }
      if row.status.Pending? && next.Accepted? {
        var debited := DebitCustomerWalletForOrder(row.user, order, row.total);
        if debited.Failed? {
          return Result.Failed(debited.message);
        }
      }
      SetOrderStatus(order, next);
      if next.Delivered? || next.Completed? {
        UpsertOrderEarningLedger(provider, order, row.total);
      }
      return Ok(next);
    }

    // ----- customer cancellation and refunds

    method CancelOrderWithRefund(order: nat, user: nat, refundAmount: int, deductionAmount: int)
      requires order < |orders|
      modifies this
      ensures View() == SetOrder(CollectFee(CompensateCustomer(old(View()), user, order, refundAmount), order,
              deductionAmount),
                                 order, OrderStatus.Cancelled)
    {
      if refundAmount > 0 {
        var found := FindWallet(wallets, Customer(user));
        if found.Some? && !HasOrderEntry(ledger, found.value, order, Refund) {
          CreateLedgerEntry(Entry(found.value, Refund, Credit, refundAmount, Success, Some(order), None, None));
          IncrementWallet(found.value, refundAmount, 0);
        }
      }
      if deductionAmount > 0 {
        var w := GetOrCreateWallet(Platform);
        if !HasOrderEntry(ledger, w, order, PlatformFee) {
          CreateLedgerEntry(Entry(w, PlatformFee, Credit, deductionAmount, Success, Some(order), None, None));
          IncrementWallet(w, deductionAmount, 0);
        }
      }
      SetOrderStatus(order, OrderStatus.Cancelled);
    }

    method CancelOrder(user: nat, order: nat, percent: Percent, drift: Drift) returns (r: Result<nat>)
      modifies this
      ensures View() == Step(old(View()), CancelOrderAction(user, order, percent, drift))
      ensures match Money.CancelOrder(old(View()), user, order, percent, drift)
              case Ok(_) => r.Ok? && r.value
                == old(orders)[order].total - Deduction(old(orders)[order].total, percent, drift)
              case Failed(message) => r == Result.Failed(message)
      ensures old(Valid()) ==> Valid()
    {
      hide Inv;
      StepKeeps(View(), CancelOrderAction(user, order, percent, drift));
      if order >= |orders| || orders[order].user != user {
        return Result.Failed("Order not found");
      }
      var row := orders[order];
      if !row.status.Accepted? && !row.status.Processing? {
        return Result.Failed("Order can only be cancelled when status is ACCEPTED or PROCESSING");
      }
      var deductionAmount := Deduction(row.total, percent, drift);
      var refundAmount := row.total - deductionAmount;
      CancelOrderWithRefund(order, user, refundAmount, deductionAmount);
      return Ok(refundAmount);
    }

    /** What a settled card payment does to its order, told by whether the payment succeeded. */
    method UpdateOrderByPayment(order: nat, succeeded: bool) returns (r: Result<()>)
      modifies this`orders
      ensures View() == Step(old(View()), if succeeded then CardAcceptAction(order) else CardFailAction(order))
      ensures r.Ok? <==> order < |old(orders)|
      ensures old(Valid()) ==> Valid()
    {
      hide Inv;
      StepKeeps(View(), if succeeded then CardAcceptAction(order) else CardFailAction(order));
      if order >= |orders| {
        return Result.Failed("Order not found");
      }
      SetOrderStatus(order, if succeeded then Accepted else OrderStatus.Cancelled);
      return Ok(());
    }

    // ----- payouts

    method CreatePayoutRequest(w: nat, amount: nat)
      requires w < |wallets|
      modifies this
      ensures var s1 := old(View()).(payouts := old(payouts) + [Payout(w, amount, PayoutStatus.Pending)]);
              var e := Entry(w, Withdrawal, Debit, amount, EntryStatus.Pending, None, Some(|old(payouts)|), None);
              View() == Adjust(Record(s1, e), w, -(amount as int), 0)
    {
      var created := |payouts|;
      payouts := payouts + [Payout(w, amount, PayoutStatus.Pending)];
      CreateLedgerEntry(Entry(w, Withdrawal, Debit, amount, EntryStatus.Pending, None, Some(created), None));
      IncrementWallet(w, -(amount as int), 0);
    }

    method RequestPayout(provider: nat, amount: nat) returns (r: Result<()>)
      modifies this
      ensures View() == Step(old(View()), RequestPayoutAction(provider, amount))
      ensures r.Ok? <==> Money.RequestPayout(old(View()), provider, amount).Ok?
      ensures old(Valid()) ==> Valid()
    {
      hide Inv;
      StepKeeps(View(), RequestPayoutAction(provider, amount));
      if amount == 0 {
        return Result.Failed("Payout amount must be greater than 0");
      }
      var found := FindWallet(wallets, Provider(provider));
      if found.None? || amount > wallets[found.value].balance {
        return Result.Failed("Payout amount exceeds available balance");
      }
      CreatePayoutRequest(found.value, amount);
      return Ok(());
    }

    method TransitionPayout(payout: nat, status: PayoutStatus, releaseLedger: bool, settleLedger: bool)
      requires KnownPayout(View(), payout)
      modifies this
      ensures View() == Money.TransitionPayout(old(View()), payout, status, releaseLedger, settleLedger)
    {
      var row := payouts[payout];
      if releaseLedger {
        ledger := VoidEntries(ledger, payout, EntryStatus.Cancelled);
        IncrementWallet(row.wallet, row.amount, 0);
      }
      if settleLedger {
        ledger := VoidEntries(ledger, payout, Success);
      }
      payouts := payouts[payout := row.(status := status)];
    }

    method CancelPayoutRequest(provider: nat, payout: nat) returns (r: Result<()>)
      modifies this
      ensures View() == Step(old(View()), CancelPayoutAction(provider, payout))
      ensures r.Ok? <==> CancelPayout(old(View()), provider, payout).Ok?
      ensures old(Valid()) ==> Valid()
    {
      hide Inv;
      StepKeeps(View(), CancelPayoutAction(provider, payout));
      if payout >= |payouts| || payouts[payout].wallet >= |wallets|
         || wallets[payouts[payout].wallet].owner != Provider(provider)
      {
        return Result.Failed("Provider payout not found");
      }
      var row := payouts[payout];
      if !row.status.Pending? {
        return Result.Failed("Only pending payouts can be cancelled");
      }
      payouts := payouts[payout := row.(status := PayoutStatus.Cancelled)];
      ledger := VoidEntries(ledger, payout, EntryStatus.Cancelled);
      IncrementWallet(row.wallet, row.amount, 0);
      return Ok(());
    }

    method ReturnFailedPayoutBalance(provider: nat, payout: nat)
      modifies this
      ensures View() == ReturnFailedPayout(old(View()), provider, payout)
    {
      if payout >= |payouts| || payouts[payout].wallet >= |wallets|
         || wallets[payouts[payout].wallet].owner != Provider(provider)
      {
        return;
      }
      var row := payouts[payout];
      payouts := payouts[payout := row.(status := PayoutStatus.Failed)];
      ledger := VoidEntries(ledger, payout, EntryStatus.Failed);
      IncrementWallet(row.wallet, row.amount, 0);
    }

    method Approve(payout: nat) returns (r: BulkResult)
      modifies this
      ensures View() == Step(old(View()), ApproveAction(payout))
      ensures r == ApproveResult(old(View()), payout)
      ensures old(Valid()) ==> Valid()
    {
      hide Inv;
      StepKeeps(View(), ApproveAction(payout));
      if payout >= |payouts| || payouts[payout].wallet >= |wallets| {
        return Refused(payout, "Provider payout not found");
      }
      var status := payouts[payout].status;
      if status.Processing? || status.Completed? {
        return Approved(payout, status, true);
      }
      if !status.Pending? && !status.OnHold? {
        return Refused(payout, "Only PENDING or ON_HOLD payout can be approved");
      }
      TransitionPayout(payout, PayoutStatus.Processing, false, false);
      return Approved(payout, PayoutStatus.Processing, false);
    }

    method Hold(payout: nat) returns (r: Result<()>)
      modifies this
      ensures View() == Step(old(View()), HoldAction(payout))
      ensures r.Ok? <==> Money.Hold(old(View()), payout).Ok?
      ensures old(Valid()) ==> Valid()
    {
      hide Inv;
      StepKeeps(View(), HoldAction(payout));
      if payout >= |payouts| || payouts[payout].wallet >= |wallets| {
        return Result.Failed("Provider payout not found");
      }
      if !payouts[payout].status.Pending? {
        return Result.Failed("Only PENDING payout can be placed on hold");
      }
      TransitionPayout(payout, OnHold, false, false);
      return Ok(());
    }

    method Reject(payout: nat) returns (r: Result<()>)
      modifies this
      ensures View() == Step(old(View()), RejectAction(payout))
      ensures r.Ok? <==> Money.Reject(old(View()), payout).Ok?
      ensures old(Valid()) ==> Valid()
    {
      hide Inv;
      StepKeeps(View(), RejectAction(payout));
      if payout >= |payouts| || payouts[payout].wallet >= |wallets| {
        return Result.Failed("Provider payout not found");
      }
      var status := payouts[payout].status;
      if !status.Pending? && !status.OnHold? {
        return Result.Failed("Only PENDING or ON_HOLD payout can be rejected");
      }
      TransitionPayout(payout, PayoutStatus.Rejected, true, false);
      return Ok(());
    }

    /** Approves each payout in turn and collects one result for each. */
    method BulkAction(payoutIds: seq<nat>) returns (results: seq<BulkResult>)
      modifies this
      ensures (View(), results) == BulkApprove(old(View()), payoutIds)
      ensures old(Valid()) ==> Valid()
    {
      hide Inv;
      results := [];
      assert payoutIds[..0] == [];
      for i := 0 to |payoutIds|
        invariant (View(), results) == BulkApprove(old(View()), payoutIds[..i])
        invariant old(Valid()) ==> Valid()
      {
        assert payoutIds[..i + 1][..i] == payoutIds[..i];
        var result := Approve(payoutIds[i]);
        results := results + [result];
      }
      assert payoutIds[..|payoutIds|] == payoutIds;
    }
  }

  lemma StepKeeps(s: State, a: Action)
    ensures Inv(s) ==> Inv(Step(s, a))
  {
    hide Inv, Attempt;
    if Inv(s) {
      AttemptKeeps(s, a);
    }
  }

  lemma EnsureKeeps(s: State, owner: Owner)
    ensures Inv(s) ==> Inv(EnsureWallet(s, owner).0)
  {
    if Inv(s) {
      EnsureWalletKeeps(s, owner, {});
    }
  }
}
