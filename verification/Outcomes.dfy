/** What every action on the money rows leaves behind, row by row: exactly when it is accepted, which rows it
    writes, and with which values. Nothing here names the helpers the actions are made of. */
module Outcomes {
  import opened Results
  import opened Money
  import opened Ledger
  import opened MoneyInvariant

  // ----- wallets, made on first use

  ghost predicate HasWallet(wallets: seq<Wallet>, owner: Owner) {
    exists i :: 0 <= i < |wallets| && wallets[i].owner == owner
  }

  /** The wallets once the owner has one. */
  ghost function With(wallets: seq<Wallet>, owner: Owner): seq<Wallet> {
    if HasWallet(wallets, owner) then wallets else wallets + [Wallet(owner, 0, 0)]
  }

  ghost predicate IsOwn(wallets: seq<Wallet>, owner: Owner, w: nat) {
    w < |wallets| && wallets[w].owner == owner
  }

  /** The wallet after money was paid into it, or taken out of it. */
  ghost function Paid(wallets: seq<Wallet>, w: nat, cash: int, credits: int): seq<Wallet>
    requires w < |wallets|
  {
    wallets[w := wallets[w].(balance := wallets[w].balance + cash, giftCredits := wallets[w].giftCredits + credits)]
  }

  lemma NotFound(wallets: seq<Wallet>, owner: Owner)
    requires !HasWallet(wallets, owner)
    ensures FindWallet(wallets, owner) == None
  {
  }

  lemma EnsuredIs(s: State, owner: Owner, w: nat)
    requires OwnersDistinct(s.wallets) && IsOwn(With(s.wallets, owner), owner, w)
    ensures EnsureWallet(s, owner) == (s.(wallets := With(s.wallets, owner)), w)
  {
    if HasWallet(s.wallets, owner) {
      UniqueWallet(s, owner, w);
    } else {
      NotFound(s.wallets, owner);
    }
  }

  // ----- top-ups and rewards

  /** Opening a top-up records one pending credit of the amount on the customer's own wallet and moves no
      balance. */
  lemma OpenedTopUp(s: State, user: nat, amount: nat, w: nat)
    requires OwnersDistinct(s.wallets) && IsOwn(With(s.wallets, Customer(user)), Customer(user), w)
    ensures Step(s, OpenTopUpAction(user, amount)) ==
            s.(wallets := With(s.wallets, Customer(user)),
               ledger := s.ledger + [Entry(w, TopUp, Credit, amount, EntryStatus.Pending, None, None, None)])
  {
    hide FindWallet, HasWallet;
    EnsuredIs(s, Customer(user), w);
  }

  /** Settling an entry: only a pending top-up is settled, and only its success pays its amount, in cash, to its
      own wallet. */
  lemma SettledTopUp(s: State, entry: nat)
    requires entry < |s.ledger| ==> s.ledger[entry].wallet < |s.wallets|
    ensures var done, failed := Step(s, CompleteTopUpAction(entry)), Step(s, FailTopUpAction(entry));
            if entry < |s.ledger| && s.ledger[entry].kind == TopUp && s.ledger[entry].status == EntryStatus.Pending then
              var e := s.ledger[entry];
              && done == s.(wallets := Paid(s.wallets, e.wallet, e.amount, 0),
                            ledger := s.ledger[entry := e.(status := Success)])
              && failed == s.(ledger := s.ledger[entry := e.(status := EntryStatus.Failed)])
            else done == s && failed == s
  {
  }

  /** Adding funds and confirming them pays the customer exactly the amount asked for, once; adding them and
      failing them pays nothing, nor does confirming them afterwards. */
  lemma TopUpArrives(s: State, user: nat, amount: nat, w: nat)
    requires OwnersDistinct(s.wallets) && IsOwn(With(s.wallets, Customer(user)), Customer(user), w)
    ensures var asked := Step(s, OpenTopUpAction(user, amount));
            var done, failed := Step(asked, CompleteTopUpAction(|s.ledger|)), Step(asked, FailTopUpAction(|s.ledger|));
            && done.wallets == Paid(With(s.wallets, Customer(user)), w, amount, 0)
            && Step(done, CompleteTopUpAction(|s.ledger|)) == Step(done, FailTopUpAction(|s.ledger|)) == done
            && failed.wallets == With(s.wallets, Customer(user))
            && Step(failed, CompleteTopUpAction(|s.ledger|)) == failed
  {
    var asked := Step(s, OpenTopUpAction(user, amount));
    var done, failed := Step(asked, CompleteTopUpAction(|s.ledger|)), Step(asked, FailTopUpAction(|s.ledger|));
    OpenedTopUp(s, user, amount, w);
    hide HasWallet, With;
    assert asked.ledger[|s.ledger|].wallet == w;
    SettledTopUp(asked, |s.ledger|);
    SettledTopUp(done, |s.ledger|);
    SettledTopUp(failed, |s.ledger|);
    hide Step;
  }

  ghost predicate RewardWritten(ledger: seq<Entry>, w: nat, reward: nat) {
    exists e :: e in ledger && e.wallet == w && e.rewardId == Some(reward)
  }

  lemma RewardFound(ledger: seq<Entry>, w: nat, reward: nat)
    ensures RewardWritten(ledger, w, reward) <==> HasRewardEntry(ledger, w, reward)
  {
    if e :| e in ledger && e.wallet == w && e.rewardId == Some(reward) {
      var i :| 0 <= i < |ledger| && ledger[i] == e;
      assert ledger[i].wallet == w;
    }
    if i :| 0 <= i < |ledger| && ledger[i].wallet == w && ledger[i].rewardId == Some(reward) {
      assert ledger[i] in ledger;
    }
  }

  /** Redeeming a reward records one settled credit of the amount and pays it in gift credits, unless the wallet
      has been credited that reward before. */
  lemma RedeemedReward(s: State, user: nat, reward: nat, amount: nat, w: nat)
    requires OwnersDistinct(s.wallets) && IsOwn(With(s.wallets, Customer(user)), Customer(user), w)
    ensures var wallets := With(s.wallets, Customer(user));
            Step(s, RedeemRewardAction(user, reward, amount)) ==
            if RewardWritten(s.ledger, w, reward) then s.(wallets := wallets)
            else s.(wallets := Paid(wallets, w, 0, amount),
                    ledger := s.ledger + [Entry(w, RewardCredit, Credit, amount, Success, None, None, Some(reward))])
  {
    hide FindWallet, HasWallet, HasRewardEntry, RewardWritten;
    EnsuredIs(s, Customer(user), w);
    RewardFound(s.ledger, w, reward);
  }

  // ----- orders

  lemma CreatedOrder(s: State, user: nat, provider: nat, total: nat)
    ensures Step(s, CreateOrderAction(user, provider, total)) ==
            s.(orders := s.orders + [Order(user, provider, total, OrderStatus.Pending)])
  {
  }

  /** The moves a provider may make, each with the statuses written out. */
  const MOVES: set<(OrderStatus, OrderStatus)> := {
    (OrderStatus.Pending, Accepted), (OrderStatus.Pending, OrderStatus.Rejected),
    (OrderStatus.Pending, OrderStatus.Cancelled),
    (Accepted, OrderStatus.Processing), (Accepted, Shipped), (Accepted, OrderStatus.Cancelled),
    (OrderStatus.Processing, Shipped), (OrderStatus.Processing, OrderStatus.Cancelled),
    (Shipped, Delivered), (Shipped, OrderStatus.Cancelled),
    (Delivered, OrderStatus.Completed)
  }

  ghost predicate OrderWritten(ledger: seq<Entry>, w: nat, order: nat, kind: Kind) {
    exists e :: e in ledger && e.wallet == w && e.orderId == Some(order) && e.kind == kind
  }

  lemma OrderFound(ledger: seq<Entry>, w: nat, order: nat, kind: Kind)
    ensures OrderWritten(ledger, w, order, kind) <==> HasOrderEntry(ledger, w, order, kind)
  {
    if e :| e in ledger && e.wallet == w && e.orderId == Some(order) && e.kind == kind {
      var i :| 0 <= i < |ledger| && ledger[i] == e;
      assert ledger[i].wallet == w;
    }
    if i :| 0 <= i < |ledger| && ledger[i].wallet == w && ledger[i].orderId == Some(order) && ledger[i].kind == kind {
      assert ledger[i] in ledger;
    }
  }

  /** The customer has a wallet that was charged for the order before, or that covers the order's total. */
  ghost predicate CanPay(s: State, o: nat)
    requires o < |s.orders|
  {
    exists w: nat :: IsOwn(s.wallets, Customer(s.orders[o].user), w)
      && (OrderWritten(s.ledger, w, o, OrderPayment)
          || s.orders[o].total <= s.wallets[w].balance + s.wallets[w].giftCredits)
  }

  lemma DebitedIff(s: State, o: nat)
    requires OwnersDistinct(s.wallets) && o < |s.orders|
    ensures DebitCustomer(s, s.orders[o].user, o, s.orders[o].total).Ok? <==> CanPay(s, o)
  {
    var owner := Customer(s.orders[o].user);
    var found := FindWallet(s.wallets, owner);
    if found.Some? {
      OrderFound(s.ledger, found.value, o, OrderPayment);
      forall w: nat | IsOwn(s.wallets, owner, w)
        ensures found == Some(w)
      {
        UniqueWallet(s, owner, w);
      }
      hide FindWallet, HasOrderEntry, OrderWritten;
      if DebitCustomer(s, s.orders[o].user, o, s.orders[o].total).Ok? {
        assert IsOwn(s.wallets, owner, found.value);
      }
    } else {
      forall w: nat
        ensures !IsOwn(s.wallets, owner, w)
      {
      }
    }
  }

  /** A provider's change of an order is accepted exactly when the order is the provider's own, the move is one
      of `MOVES`, a rejection gives its reason, and a pending order that is accepted can be paid. */
  lemma UpdateAccepted(s: State, provider: nat, o: nat, next: OrderStatus, hasReason: bool)
    requires OwnersDistinct(s.wallets)
    ensures Attempt(s, UpdateOrderStatusAction(provider, o, next, hasReason)).Ok? <==>
            && o < |s.orders| && s.orders[o].provider == provider
            && (s.orders[o].status, next) in MOVES
            && (next == OrderStatus.Rejected ==> hasReason)
            && (s.orders[o].status == OrderStatus.Pending && next == Accepted ==> CanPay(s, o))
  {
    hide DebitCustomer, EarnOrder, CanPay;
    if o < |s.orders| {
      DebitedIff(s, o);
      MovesAre(s.orders[o].status, next);
    }
  }

  lemma MovesAre(current: OrderStatus, next: OrderStatus)
    ensures (current, next) in MOVES <==> Allowed(current, next)
    ensures Allowed(current, next) ==> !current.Cancelled? && !current.Rejected?
  {
  }

  /** An accepted change of an order, by what else it writes: accepting a pending order charges its customer,
      gift credits before cash, unless it was charged before. */
  lemma AcceptedOrder(s: State, o: nat, w: nat, hasReason: bool)
    requires OwnersDistinct(s.wallets) && o < |s.orders| && s.orders[o].status == OrderStatus.Pending
    requires IsOwn(s.wallets, Customer(s.orders[o].user), w) && s.wallets[w].giftCredits >= 0
    ensures var order, wallet := s.orders[o], s.wallets[w];
            var credits := if order.total <= wallet.giftCredits then order.total else wallet.giftCredits;
            var orders := s.orders[o := order.(status := Accepted)];
            Step(s, UpdateOrderStatusAction(order.provider, o, Accepted, hasReason)) ==
            if OrderWritten(s.ledger, w, o, OrderPayment) then s.(orders := orders)
            else if wallet.balance + wallet.giftCredits < order.total then s
            else s.(orders := orders,
                    wallets := Paid(s.wallets, w, credits - order.total, -credits),
                    ledger := s.ledger + [Entry(w, OrderPayment, Debit, order.total, Success, Some(o), None, None)])
  {
    UniqueWallet(s, Customer(s.orders[o].user), w);
    OrderFound(s.ledger, w, o, OrderPayment);
    hide FindWallet, HasOrderEntry, OrderWritten, EarnOrder;
  }

  /** Delivering and completing an order pay its provider the total in cash, unless it was paid before. */
  lemma EarnedOrder(s: State, o: nat, next: OrderStatus, hasReason: bool, w: nat)
    requires OwnersDistinct(s.wallets) && o < |s.orders| && (s.orders[o].status, next) in MOVES
    requires next == Delivered || next == OrderStatus.Completed
    requires IsOwn(With(s.wallets, Provider(s.orders[o].provider)), Provider(s.orders[o].provider), w)
    ensures var order, wallets := s.orders[o], With(s.wallets, Provider(s.orders[o].provider));
            var orders := s.orders[o := order.(status := next)];
            Step(s, UpdateOrderStatusAction(order.provider, o, next, hasReason)) ==
            if OrderWritten(s.ledger, w, o, OrderEarning) then s.(orders := orders, wallets := wallets)
            else s.(orders := orders,
                    wallets := Paid(wallets, w, order.total, 0),
                    ledger := s.ledger + [Entry(w, OrderEarning, Credit, order.total, Success, Some(o), None, None)])
  {
    EnsuredIs(SetOrder(s, o, next), Provider(s.orders[o].provider), w);
    OrderFound(s.ledger, w, o, OrderEarning);
    MovesAre(s.orders[o].status, next);
    hide FindWallet, HasOrderEntry, OrderWritten, DebitCustomer, With;
  }

  /** Every other accepted change writes the status and nothing else, and so do a settled refund, a confirmed and
      a failed card payment, the last three whatever the status was. */
  lemma OnlyStatus(s: State, o: nat, next: OrderStatus, hasReason: bool)
    requires o < |s.orders|
    ensures var order := s.orders[o];
            && ((order.status, next) in MOVES && next != Accepted && next != Delivered && next != OrderStatus.Completed
                && (next == OrderStatus.Rejected ==> hasReason) ==>
                  Step(s, UpdateOrderStatusAction(order.provider, o, next, hasReason)) ==
                  s.(orders := s.orders[o := order.(status := next)]))
            && Step(s, RefundOrderAction(o)) == s.(orders := s.orders[o := order.(status := OrderStatus.Cancelled)])
            && Step(s, CardFailAction(o)) == s.(orders := s.orders[o := order.(status := OrderStatus.Cancelled)])
            && Step(s, CardAcceptAction(o)) == s.(orders := s.orders[o := order.(status := Accepted)])
  {
    MovesAre(s.orders[o].status, next);
    hide DebitCustomer, EarnOrder;
  }

  /** A customer's cancellation is accepted exactly for the customer's own order in status ACCEPTED or PROCESSING,
      which it then takes to CANCELLED, writing no other order and no payout. */
  lemma CancelAccepted(s: State, user: nat, o: nat, percent: Percent, drift: Drift)
    ensures var r := Attempt(s, CancelOrderAction(user, o, percent, drift));
            && (r.Ok? <==> o < |s.orders| && s.orders[o].user == user
                           && (s.orders[o].status == Accepted || s.orders[o].status == OrderStatus.Processing))
            && (r.Ok? ==> r.value.orders == s.orders[o := s.orders[o].(status := OrderStatus.Cancelled)]
                          && r.value.payouts == s.payouts)
  {
    hide Deduction, FindWallet, HasOrderEntry;
  }

  /** The refund of a cancelled order goes to the customer's wallet if there is one, once. */
  ghost function Refunded(s: State, o: nat, amount: nat, w: nat): State
    requires o < |s.orders|
  {
    if amount == 0 || !IsOwn(s.wallets, Customer(s.orders[o].user), w) || OrderWritten(s.ledger, w, o, Refund) then s
    else s.(wallets := Paid(s.wallets, w, amount, 0),
            ledger := s.ledger + [Entry(w, Refund, Credit, amount, Success, Some(o), None, None)])
  }

  /** The deduction goes to the platform's wallet, once. */
  ghost function Charged(s: State, o: nat, amount: nat, p: nat): State {
    var wallets := With(s.wallets, Platform);
    if amount == 0 then s
    else if p >= |wallets| || OrderWritten(s.ledger, p, o, PlatformFee) then s.(wallets := wallets)
    else s.(wallets := Paid(wallets, p, amount, 0),
            ledger := s.ledger + [Entry(p, PlatformFee, Credit, amount, Success, Some(o), None, None)])
  }

  /** What a cancellation writes: the rest of the total back to the customer's wallet w, if there is one, the
      deduction to the platform's wallet p, and the status. */
  lemma CancelledOrder(s: State, o: nat, percent: Percent, drift: Drift, w: nat, p: nat)
    requires OwnersDistinct(s.wallets) && o < |s.orders|
    requires s.orders[o].status == Accepted || s.orders[o].status == OrderStatus.Processing
    requires HasWallet(s.wallets, Customer(s.orders[o].user)) ==> IsOwn(s.wallets, Customer(s.orders[o].user), w)
    requires IsOwn(With(s.wallets, Platform), Platform, p)
    ensures var order, d := s.orders[o], Deduction(s.orders[o].total, percent, drift);
            Step(s, CancelOrderAction(order.user, o, percent, drift)) ==
            Charged(Refunded(s, o, order.total - d, w), o, d, p).(
              orders := s.orders[o := order.(status := OrderStatus.Cancelled)])
  {
    hide Deduction, CompensateCustomer, CollectFee, OrderWritten, With, HasWallet, IsOwn, OwnersDistinct;
    var order, d := s.orders[o], Deduction(s.orders[o].total, percent, drift);
    Compensated(s, o, order.total - d, w, p);
    Collected(CompensateCustomer(s, order.user, o, order.total - d), o, d, p);
  }

  lemma Compensated(s: State, o: nat, amount: nat, w: nat, p: nat)
    requires OwnersDistinct(s.wallets) && o < |s.orders| && IsOwn(With(s.wallets, Platform), Platform, p)
    requires HasWallet(s.wallets, Customer(s.orders[o].user)) ==> IsOwn(s.wallets, Customer(s.orders[o].user), w)
    ensures var s1 := CompensateCustomer(s, s.orders[o].user, o, amount);
            && s1 == Refunded(s, o, amount, w)
            && OwnersDistinct(s1.wallets) && IsOwn(With(s1.wallets, Platform), Platform, p)
  {
    if IsOwn(s.wallets, Customer(s.orders[o].user), w) {
      UniqueWallet(s, Customer(s.orders[o].user), w);
      SameOwners(s.wallets, w, amount);
    } else {
      NotFound(s.wallets, Customer(s.orders[o].user));
    }
    OrderFound(s.ledger, w, o, Refund);
    hide FindWallet, HasOrderEntry, OrderWritten, HasWallet, With;
  }

  lemma Collected(s: State, o: nat, amount: nat, p: nat)
    requires OwnersDistinct(s.wallets) && IsOwn(With(s.wallets, Platform), Platform, p)
    ensures CollectFee(s, o, amount) == Charged(s, o, amount, p)
  {
    EnsuredIs(s, Platform, p);
    OrderFound(s.ledger, p, o, PlatformFee);
    hide FindWallet, HasOrderEntry, OrderWritten, With;
  }

  /** Paying into a wallet makes no difference to who has one. */
  lemma SameOwners(wallets: seq<Wallet>, w: nat, cash: int)
    requires OwnersDistinct(wallets) && w < |wallets|
    ensures var after := Paid(wallets, w, cash, 0);
            && OwnersDistinct(after) && (HasWallet(after, Platform) <==> HasWallet(wallets, Platform))
            && (forall p :: IsOwn(With(after, Platform), Platform, p) <==> IsOwn(With(wallets, Platform), Platform, p))
  {
    var after := Paid(wallets, w, cash, 0);
    if HasWallet(wallets, Platform) {
      var i :| 0 <= i < |wallets| && wallets[i].owner == Platform;
      assert after[i].owner == Platform;
    }
  }

  // ----- payouts

  /** A payout is requested exactly when its amount is positive and the provider's wallet covers it; it is then
      pending, its debit too, and its amount out of the wallet. */
  lemma RequestedPayout(s: State, provider: nat, amount: nat)
    requires OwnersDistinct(s.wallets)
    ensures var r := Attempt(s, RequestPayoutAction(provider, amount));
            && (r.Ok? <==> amount > 0 && exists w: nat :: IsOwn(s.wallets, Provider(provider), w)
                                                      && amount <= s.wallets[w].balance)
            && (forall w: nat :: r.Ok? && IsOwn(s.wallets, Provider(provider), w) ==>
                  r.value == State(Paid(s.wallets, w, -(amount as int), 0),
                                   s.ledger + [Entry(w, Withdrawal, Debit, amount, EntryStatus.Pending, None,
                                                     Some(|s.payouts|), None)],
                                   s.orders, s.payouts + [Payout(w, amount, PayoutStatus.Pending)]))
  {
    var found := FindWallet(s.wallets, Provider(provider));
    forall w: nat | IsOwn(s.wallets, Provider(provider), w)
      ensures found == Some(w)
    {
      UniqueWallet(s, Provider(provider), w);
    }
    hide FindWallet;
    if Attempt(s, RequestPayoutAction(provider, amount)).Ok? {
      assert IsOwn(s.wallets, Provider(provider), found.value);
    }
  }

  /** The pending entries of a payout become cancelled (or whatever they are voided to), no other changes. */
  ghost predicate Voided(ledger: seq<Entry>, after: seq<Entry>, payout: nat, to: EntryStatus) {
    && |after| == |ledger|
    && forall i :: 0 <= i < |ledger| ==>
         after[i] == if ledger[i].withdrawalId == Some(payout) && ledger[i].status == EntryStatus.Pending
                     then ledger[i].(status := to) else ledger[i]
  }

  lemma VoidedIs(ledger: seq<Entry>, payout: nat, to: EntryStatus)
    ensures Voided(ledger, VoidEntries(ledger, payout, to), payout, to)
  {
    forall i | 0 <= i < |ledger|
      ensures VoidEntries(ledger, payout, to)[i] ==
              if ledger[i].withdrawalId == Some(payout) && ledger[i].status == EntryStatus.Pending
              then ledger[i].(status := to) else ledger[i]
    {
      VoidAt(ledger, payout, to, i);
    }
  }

  /** The payout takes a status and nothing else changes. */
  ghost predicate Marked(s: State, s': State, p: nat, status: PayoutStatus) {
    p < |s.payouts| && s' == s.(payouts := s.payouts[p := s.payouts[p].(status := status)])
  }

  /** The payout takes a status, its pending debit another, and its amount goes back to its wallet. */
  ghost predicate GivenBack(s: State, s': State, p: nat, status: PayoutStatus, to: EntryStatus) {
    && p < |s.payouts| && s.payouts[p].wallet < |s.wallets|
    && s'.wallets == Paid(s.wallets, s.payouts[p].wallet, s.payouts[p].amount, 0)
    && Voided(s.ledger, s'.ledger, p, to)
    && s'.orders == s.orders
    && s'.payouts == s.payouts[p := s.payouts[p].(status := status)]
  }

  /** Approving takes a payout that is pending or on hold to PROCESSING, reports one already there or completed
      without changing it, and refuses any other. */
  lemma ApprovedPayout(s: State, p: nat)
    requires p < |s.payouts| && s.payouts[p].wallet < |s.wallets|
    ensures var status, r := s.payouts[p].status, Attempt(s, ApproveAction(p));
            if status == PayoutStatus.Pending || status == OnHold then
              r.Ok? && Marked(s, r.value, p, PayoutStatus.Processing)
            else if status == PayoutStatus.Processing || status == PayoutStatus.Completed then r == Ok(s)
            else r.Failed?
  {
  }

  /** Holding takes exactly a pending payout to ON_HOLD and writes nothing else. */
  lemma HeldPayout(s: State, p: nat)
    ensures var r := Attempt(s, HoldAction(p));
            && (r.Ok? <==> p < |s.payouts| && s.payouts[p].wallet < |s.wallets|
                           && s.payouts[p].status == PayoutStatus.Pending)
            && (r.Ok? ==> Marked(s, r.value, p, OnHold))
  {
  }

  /** Rejecting takes exactly a payout that is pending or on hold to REJECTED and gives its money back. */
  lemma RejectedPayout(s: State, p: nat)
    ensures var r := Attempt(s, RejectAction(p));
            && (r.Ok? <==> p < |s.payouts| && s.payouts[p].wallet < |s.wallets|
                           && (s.payouts[p].status == PayoutStatus.Pending || s.payouts[p].status == OnHold))
            && (r.Ok? ==> GivenBack(s, r.value, p, PayoutStatus.Rejected, EntryStatus.Cancelled))
  {
    VoidedIs(s.ledger, p, EntryStatus.Cancelled);
    hide VoidEntries, Voided;
  }

  /** A provider cancels exactly a pending payout from a wallet of its own, and gets its money back. */
  lemma CancelledPayout(s: State, provider: nat, p: nat)
    ensures var r := Attempt(s, CancelPayoutAction(provider, p));
            && (r.Ok? <==> p < |s.payouts| && IsOwn(s.wallets, Provider(provider), s.payouts[p].wallet)
                           && s.payouts[p].status == PayoutStatus.Pending)
            && (r.Ok? ==> GivenBack(s, r.value, p, PayoutStatus.Cancelled, EntryStatus.Cancelled))
  {
    VoidedIs(s.ledger, p, EntryStatus.Cancelled);
    hide VoidEntries, Voided;
  }

  /** A failed payout is given back whenever the wallet is the provider's own, and left alone otherwise. */
  lemma FailedPayout(s: State, provider: nat, p: nat)
    ensures var s' := ReturnFailedPayout(s, provider, p);
            if p < |s.payouts| && IsOwn(s.wallets, Provider(provider), s.payouts[p].wallet) then
              GivenBack(s, s', p, PayoutStatus.Failed, EntryStatus.Failed)
            else s' == s
  {
    VoidedIs(s.ledger, p, EntryStatus.Failed);
    hide VoidEntries, Voided;
  }

  /** A transition that releases gives back, one that settles makes the debit final; one that does neither only
      marks the payout. */
  lemma TransitionedPayout(s: State, p: nat, status: PayoutStatus)
    requires p < |s.payouts| && s.payouts[p].wallet < |s.wallets|
    ensures Marked(s, TransitionPayout(s, p, status, false, false), p, status)
    ensures GivenBack(s, TransitionPayout(s, p, status, true, false), p, status, EntryStatus.Cancelled)
    ensures var s' := TransitionPayout(s, p, status, false, true);
            Voided(s.ledger, s'.ledger, p, Success) && Marked(s.(ledger := s'.ledger), s', p, status)
  {
    VoidedIs(s.ledger, p, EntryStatus.Cancelled);
    VoidedIs(s.ledger, p, Success);
    hide VoidEntries, Voided;
  }
}
