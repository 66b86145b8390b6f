/** What every reachable state satisfies, whatever happens to orders: each wallet agrees with its ledger
    entries, each entry of an order is one of its parties', and each payout has exactly one debit. */
module MoneyInvariant {
  import opened Results
  import opened Money
  import opened Ledger

  /** The entries each kind of action writes. */
  predicate Shaped(e: Entry) {
    && e.amount >= 0
    && match e.kind
       case TopUp => e.direction.Credit? && e.orderId.None? && e.withdrawalId.None?
       case RewardCredit => e.direction.Credit? && e.status.Success? && e.orderId.None? && e.withdrawalId.None?
       case OrderPayment => e.direction.Debit? && e.status.Success? && e.orderId.Some? && e.withdrawalId.None?
       case Withdrawal => e.direction.Debit? && (e.status.Pending? || e.status.Cancelled?) && e.orderId.None?
         && e.withdrawalId.Some?
       case _ => e.direction.Credit? && e.status.Success? && e.orderId.Some? && e.withdrawalId.None?
  }

  /** Whose wallet an order's entry of a kind is on. */
  function Party(order: Order, kind: Kind): Owner {
    match kind
    case OrderPayment => Customer(order.user)
    case Refund => Customer(order.user)
    case OrderEarning => Provider(order.provider)
    case _ => Platform
  }

  /** An entry of an order is on its party's wallet; payments and earnings are of the order's total, refunds
      and fees of a part of it. */
  predicate OfParty(s: State, e: Entry, o: nat) {
    && o < |s.orders| && e.wallet < |s.wallets|
    && s.wallets[e.wallet].owner == Party(s.orders[o], e.kind)
    && (if e.kind.OrderPayment? || e.kind.OrderEarning? then e.amount == s.orders[o].total
        else 0 < e.amount <= s.orders[o].total)
  }

  predicate InRange(s: State, e: Entry) {
    && e.wallet < |s.wallets|
    && (e.orderId.Some? ==> OfParty(s, e, e.orderId.value))
    && (e.withdrawalId.Some? ==> e.withdrawalId.value < |s.payouts|)
  }

  ghost predicate OwnersDistinct(wallets: seq<Wallet>) {
    forall i, j :: 0 <= i < j < |wallets| ==> wallets[i].owner != wallets[j].owner
  }

  ghost predicate EntriesOk(s: State) {
    forall e :: e in s.ledger ==> Shaped(e) && InRange(s, e)
  }

  /** Balance and credits are what the ledger says, and neither is negative. */
  ghost predicate WalletOk(s: State, w: nat)
    requires w < |s.wallets|
  {
    var wallet := s.wallets[w];
    && wallet.balance + wallet.giftCredits == Net(s.ledger, WalletBook, w)
    && wallet.balance >= 0 && wallet.giftCredits >= 0
    && (!wallet.owner.Customer? ==> wallet.giftCredits == 0)
  }

  predicate Returned(status: PayoutStatus) {
    status.Rejected? || status.Cancelled?
  }

  /** The debit a payout was opened with, voided exactly when its money was returned. */
  function PayoutEntry(p: Payout, id: nat): Entry {
    Entry(p.wallet, Withdrawal, Debit, p.amount,
          if Returned(p.status) then EntryStatus.Cancelled else EntryStatus.Pending, None, Some(id), None)
  }

  ghost predicate PayoutOk(s: State, p: nat)
    requires p < |s.payouts|
  {
    && s.payouts[p].wallet < |s.wallets| && s.wallets[s.payouts[p].wallet].owner.Provider?
    && s.payouts[p].amount > 0
    && !s.payouts[p].status.Completed? && !s.payouts[p].status.Failed?
    && Rows(s.ledger, PayoutBook, p) == [PayoutEntry(s.payouts[p], p)]
  }

  /** The invariant, but for the payouts an action is still working on. */
  ghost predicate InvExcept(s: State, openPayouts: set<nat>) {
    && OwnersDistinct(s.wallets)
    && EntriesOk(s)
    && (forall w :: 0 <= w < |s.wallets| ==> WalletOk(s, w))
    && (forall p :: 0 <= p < |s.payouts| && p !in openPayouts ==> PayoutOk(s, p))
  }

  ghost predicate Inv(s: State) {
    InvExcept(s, {})
  }

  // ----- building blocks

  lemma EnsureWalletKeeps(s: State, owner: Owner, xp: set<nat>)
    requires InvExcept(s, xp)
    ensures InvExcept(EnsureWallet(s, owner).0, xp)
  {
    hide Total;
    var s1 := EnsureWallet(s, owner).0;
    if s1 != s {
      var w := |s.wallets|;
      NoRows(s.ledger, WalletBook, w);
      EmptyTotal();
      assert WalletOk(s1, w);
      forall i | 0 <= i < |s.wallets|
        ensures WalletOk(s1, i)
      {
        assert WalletOk(s, i);
      }
      forall p | 0 <= p < |s.payouts| && p !in xp
        ensures PayoutOk(s1, p)
      {
        assert PayoutOk(s, p);
      }
    }
  }

  lemma EmptyTotal()
    ensures Total([], WalletBook) == 0
  {
  }

  ghost predicate CanBook(s: State, e: Entry, balance: int, giftCredits: int) {
    && Shaped(e) && InRange(s, e)
    && balance + giftCredits == Amount(e, WalletBook)
    && s.wallets[e.wallet].balance + balance >= 0
    && s.wallets[e.wallet].giftCredits + giftCredits >= 0
    && (!s.wallets[e.wallet].owner.Customer? ==> giftCredits == 0)
  }

  function KeySet(key: Option<nat>): set<nat> {
    if key.Some? then {key.value} else {}
  }

  function Book(s: State, e: Entry, balance: int, giftCredits: int): State
    requires e.wallet < |s.wallets|
  {
    Adjust(Record(s, e), e.wallet, balance, giftCredits)
  }

  /** Writing one entry together with its effect on the wallet. */
  lemma BookKeeps(s: State, e: Entry, balance: int, giftCredits: int, xp: set<nat>)
    requires InvExcept(s, xp) && CanBook(s, e, balance, giftCredits)
    ensures InvExcept(Book(s, e, balance, giftCredits), xp + KeySet(e.withdrawalId))
  {
    hide Rows, Total, Amount, Shaped;
    var s' := Book(s, e, balance, giftCredits);
    forall i | 0 <= i < |s'.wallets|
      ensures WalletOk(s', i)
    {
      assert WalletOk(s, i);
      RowsAppend(s.ledger, e, WalletBook, i);
    }
    forall p | 0 <= p < |s.payouts| && p !in xp + KeySet(e.withdrawalId)
      ensures PayoutOk(s', p)
    {
      assert PayoutOk(s, p);
      RowsAppend(s.ledger, e, PayoutBook, p);
      assert Rows(s.ledger, PayoutBook, p) + [] == Rows(s.ledger, PayoutBook, p);
    }
  }

  /** Writing an entry without a payout. */
  lemma PlainBookKeeps(s: State, e: Entry, balance: int, giftCredits: int)
    requires Inv(s) && CanBook(s, e, balance, giftCredits) && e.withdrawalId.None?
    ensures Inv(Book(s, e, balance, giftCredits))
  {
    hide InvExcept;
    BookKeeps(s, e, balance, giftCredits, {});
    var none: set<nat> := {};
    assert none + KeySet(e.withdrawalId) == none;
  }

  /** An order's status is no concern of wallets and payouts. */
  lemma SetOrderKeeps(s: State, o: nat, status: OrderStatus)
    requires Inv(s) && o < |s.orders|
    ensures Inv(SetOrder(s, o, status))
  {
    hide Rows;
    var s' := SetOrder(s, o, status);
    forall w | 0 <= w < |s'.wallets|
      ensures WalletOk(s', w)
    {
      assert WalletOk(s, w);
    }
    forall p | 0 <= p < |s'.payouts|
      ensures PayoutOk(s', p)
    {
      assert PayoutOk(s, p);
    }
  }

  lemma UniqueWallet(s: State, owner: Owner, w: nat)
    requires OwnersDistinct(s.wallets) && w < |s.wallets| && s.wallets[w].owner == owner
    ensures FindWallet(s.wallets, owner) == Some(w)
  {
  }

  // ----- top-ups, rewards, new orders

  lemma OpenTopUpKeeps(s: State, user: nat, amount: nat)
    requires Inv(s)
    ensures Inv(OpenTopUp(s, user, amount))
  {
    EnsureWalletKeeps(s, Customer(user), {});
    var (s1, w) := EnsureWallet(s, Customer(user));
    var e := Entry(w, TopUp, Credit, amount, EntryStatus.Pending, None, None, None);
    assert WalletOk(s1, w);
    PlainBookKeeps(s1, e, 0, 0);
    assert Book(s1, e, 0, 0).wallets == s1.wallets;
  }

  lemma RedeemRewardKeeps(s: State, user: nat, reward: nat, amount: nat)
    requires Inv(s)
    ensures Inv(RedeemReward(s, user, reward, amount))
  {
    EnsureWalletKeeps(s, Customer(user), {});
    var (s1, w) := EnsureWallet(s, Customer(user));
    assert WalletOk(s1, w);
    PlainBookKeeps(s1, Entry(w, RewardCredit, Credit, amount, Success, None, None, Some(reward)), 0, amount);
  }

  lemma SettleTopUpKeeps(s: State, entry: nat, status: EntryStatus)
    requires Inv(s) && OpenEntry(s, entry) && s.ledger[entry].wallet < |s.wallets|
    requires status.Success? || status.Failed?
    ensures var e := s.ledger[entry];
            Inv(Adjust(SetEntry(s, entry, status), e.wallet, if status.Success? then e.amount else 0, 0))
  {
    hide Rows, Total;
    var e := s.ledger[entry];
    assert e in s.ledger;
    var e' := e.(status := status);
    var s' := Adjust(SetEntry(s, entry, status), e.wallet, if status.Success? then e.amount else 0, 0);
    forall i | 0 <= i < |s'.wallets|
      ensures WalletOk(s', i)
    {
      assert WalletOk(s, i);
      NetSet(s.ledger, entry, e', WalletBook, i);
    }
    forall p | 0 <= p < |s.payouts|
      ensures PayoutOk(s', p)
    {
      assert PayoutOk(s, p);
      RowsSetElsewhere(s.ledger, entry, e', PayoutBook, p);
    }
    forall x | x in s'.ledger
      ensures Shaped(x) && InRange(s', x)
    {
      assert x == e' || x in s.ledger;
    }
  }

  lemma CompleteTopUpKeeps(s: State, entry: nat)
    requires Inv(s)
    ensures Inv(CompleteTopUp(s, entry))
  {
    if OpenEntry(s, entry) {
      assert s.ledger[entry] in s.ledger;
      SettleTopUpKeeps(s, entry, Success);
    }
  }

  lemma FailTopUpKeeps(s: State, entry: nat)
    requires Inv(s)
    ensures Inv(FailTopUp(s, entry))
  {
    if OpenEntry(s, entry) {
      var e := s.ledger[entry];
      assert e in s.ledger;
      SettleTopUpKeeps(s, entry, EntryStatus.Failed);
      var s1 := SetEntry(s, entry, EntryStatus.Failed);
      assert Adjust(s1, e.wallet, 0, 0).wallets == s1.wallets;
    }
  }

  lemma CreateOrderKeeps(s: State, user: nat, provider: nat, total: nat)
    requires Inv(s)
    ensures Inv(CreateOrder(s, user, provider, total))
  {
    hide Rows;
    var s' := CreateOrder(s, user, provider, total);
    forall w | 0 <= w < |s'.wallets|
      ensures WalletOk(s', w)
    {
      assert WalletOk(s, w);
    }
    forall p | 0 <= p < |s'.payouts|
      ensures PayoutOk(s', p)
    {
      assert PayoutOk(s, p);
    }
  }

  // ----- order actions

  lemma DebitKeeps(s: State, o: nat)
    requires Inv(s) && o < |s.orders|
    ensures var r := DebitCustomer(s, s.orders[o].user, o, s.orders[o].total); r.Ok? ==> Inv(r.value)
  {
    hide Net, PayoutOk, EntriesOk, HasOrderEntry;
    var order := s.orders[o];
    var r := DebitCustomer(s, order.user, o, order.total);
    if r.Ok? && r.value != s {
      var w := FindWallet(s.wallets, Customer(order.user)).value;
      assert WalletOk(s, w);
      var credits := Min(s.wallets[w].giftCredits, order.total);
      PlainBookKeeps(s, Entry(w, OrderPayment, Debit, order.total, Success, Some(o), None, None),
        credits - order.total, -credits);
    }
  }

  lemma EarnKeeps(s: State, o: nat)
    requires Inv(s) && o < |s.orders|
    ensures Inv(EarnOrder(s, s.orders[o].provider, o, s.orders[o].total))
  {
    hide Net, PayoutOk, EntriesOk, HasOrderEntry;
    var order := s.orders[o];
    EnsureWalletKeeps(s, Provider(order.provider), {});
    var (s1, w) := EnsureWallet(s, Provider(order.provider));
    if !HasOrderEntry(s1.ledger, w, o, OrderEarning) {
      assert WalletOk(s1, w);
      PlainBookKeeps(s1, Entry(w, OrderEarning, Credit, order.total, Success, Some(o), None, None), order.total, 0);
    }
  }

  lemma UpdateOrderStatusKeeps(s: State, provider: nat, o: nat, next: OrderStatus, hasReason: bool)
    requires Inv(s)
    ensures var r := UpdateOrderStatus(s, provider, o, next, hasReason); r.Ok? ==> Inv(r.value)
  {
    hide DebitCustomer, EarnOrder, Inv;
    var r := UpdateOrderStatus(s, provider, o, next, hasReason);
    if r.Ok? {
      var charges := s.orders[o].status.Pending? && next.Accepted?;
      var debited := if charges then DebitCustomer(s, s.orders[o].user, o, s.orders[o].total) else Ok(s);
      DebitKeeps(s, o);
      SetOrderKeeps(debited.value, o, next);
      EarnKeeps(SetOrder(debited.value, o, next), o);
    }
  }

  lemma CompensateKeeps(s: State, o: nat, amount: int)
    requires Inv(s) && o < |s.orders| && amount <= s.orders[o].total
    ensures Inv(CompensateCustomer(s, s.orders[o].user, o, amount))
  {
    hide Net, PayoutOk, EntriesOk, HasOrderEntry;
    var found := FindWallet(s.wallets, Customer(s.orders[o].user));
    if amount > 0 && found.Some? && !HasOrderEntry(s.ledger, found.value, o, Refund) {
      assert WalletOk(s, found.value);
      PlainBookKeeps(s, Entry(found.value, Refund, Credit, amount, Success, Some(o), None, None), amount, 0);
    }
  }

  lemma CollectKeeps(s: State, o: nat, amount: int)
    requires Inv(s) && o < |s.orders| && amount <= s.orders[o].total
    ensures Inv(CollectFee(s, o, amount))
  {
    hide Net, PayoutOk, EntriesOk, HasOrderEntry;
    if amount > 0 {
      EnsureWalletKeeps(s, Platform, {});
      var (s1, w) := EnsureWallet(s, Platform);
      if !HasOrderEntry(s1.ledger, w, o, PlatformFee) {
        assert WalletOk(s1, w);
        PlainBookKeeps(s1, Entry(w, PlatformFee, Credit, amount, Success, Some(o), None, None), amount, 0);
      }
    }
  }

  lemma CancelOrderKeeps(s: State, user: nat, o: nat, percent: Percent, drift: Drift)
    requires Inv(s)
    ensures var r := CancelOrder(s, user, o, percent, drift); r.Ok? ==> Inv(r.value)
  {
    hide CompensateCustomer, CollectFee, Deduction, Inv;
    var r := CancelOrder(s, user, o, percent, drift);
    if r.Ok? {
      var total, d := s.orders[o].total, Deduction(s.orders[o].total, percent, drift);
      CompensateKeeps(s, o, total - d);
      var s1 := CompensateCustomer(s, user, o, total - d);
      CollectKeeps(s1, o, d);
      SetOrderKeeps(CollectFee(s1, o, d), o, OrderStatus.Cancelled);
    }
  }

  // ----- payout actions

  lemma RequestPayoutKeeps(s: State, provider: nat, amount: nat)
    requires Inv(s)
    ensures var r := RequestPayout(s, provider, amount); r.Ok? ==> Inv(r.value)
  {
    hide Total;
    var r := RequestPayout(s, provider, amount);
    if r.Ok? {
      var w, p := FindWallet(s.wallets, Provider(provider)).value, |s.payouts|;
      var s1 := s.(payouts := s.payouts + [Payout(w, amount, PayoutStatus.Pending)]);
      var e := Entry(w, Withdrawal, Debit, amount, EntryStatus.Pending, None, Some(p), None);
      NoRows(s.ledger, PayoutBook, p);
      AppendPayout(s, s1, p);
      assert WalletOk(s1, w);
      assert CanBook(s1, e, -(amount as int), 0);
      PayoutBooked(s1, p, e, -(amount as int));
    }
  }

  lemma PayoutBooked(s: State, p: nat, e: Entry, balance: int)
    requires p < |s.payouts| && InvExcept(s, {p}) && Rows(s.ledger, PayoutBook, p) == []
    requires e == PayoutEntry(s.payouts[p], p) && s.payouts[p].status.Pending?
    requires e.wallet < |s.wallets| && s.wallets[e.wallet].owner.Provider? && e.amount > 0
    requires CanBook(s, e, balance, 0)
    ensures Inv(Book(s, e, balance, 0))
  {
    hide Rows, Net, Shaped, Amount;
    BookKeeps(s, e, balance, 0, {p});
    assert {p} + KeySet(e.withdrawalId) == {p};
    var s' := Book(s, e, balance, 0);
    RowsAppend(s.ledger, e, PayoutBook, p);
    assert [] + [e] == [e];
    assert PayoutOk(s', p);
  }

  lemma AppendPayout(s: State, s1: State, p: nat)
    requires Inv(s) && p == |s.payouts| && |s1.payouts| == p + 1 && s1 == s.(payouts := s1.payouts)
             && s1.payouts[..p] == s.payouts
    ensures InvExcept(s1, {p})
  {
    hide Rows;
    forall i | 0 <= i < |s1.payouts| && i !in {p}
      ensures PayoutOk(s1, i)
    {
      assert PayoutOk(s, i);
      assert s1.payouts[i] == s1.payouts[..p][i];
    }
    forall w | 0 <= w < |s1.wallets|
      ensures WalletOk(s1, w)
    {
      assert WalletOk(s, w);
    }
  }

  /** Moving a payout between statuses that both keep, or both have returned, the money. */
  lemma RelabelKeeps(s: State, p: nat, status: PayoutStatus)
    requires Inv(s) && p < |s.payouts| && s.payouts[p].wallet < |s.wallets|
    requires !status.Completed? && !status.Failed? && (Returned(status) <==> Returned(s.payouts[p].status))
    ensures Inv(TransitionPayout(s, p, status, false, false))
  {
    hide Rows;
    var s' := TransitionPayout(s, p, status, false, false);
    forall i | 0 <= i < |s'.payouts|
      ensures PayoutOk(s', i)
    {
      assert PayoutOk(s, i);
    }
    forall w | 0 <= w < |s'.wallets|
      ensures WalletOk(s', w)
    {
      assert WalletOk(s, w);
    }
  }

  /** Voiding the entries of a payout that has one debit gives its amount to the debit's wallet, if it was still
      pending, and nothing to any other. */
  lemma VoidShare(ledger: seq<Entry>, p: nat, to: EntryStatus, w: nat, e: Entry)
    requires !to.Success? && !to.Pending?
    requires Rows(ledger, PayoutBook, p) == [e] && e.direction.Debit?
    ensures Net(VoidEntries(ledger, p, to), WalletBook, w) ==
            Net(ledger, WalletBook, w) + if e.wallet == w && e.status.Pending? then e.amount else 0
  {
    hide Rows, Total, VoidEntries;
    RowsVoid(ledger, p, to, WalletBook, w);
    VoidReturns(Rows(ledger, WalletBook, w), p, to);
    ShareOf(ledger, p, w, e);
  }

  lemma ShareOf(ledger: seq<Entry>, p: nat, w: nat, e: Entry)
    requires Rows(ledger, PayoutBook, p) == [e] && e.direction.Debit?
    ensures PendingDebits(Rows(Rows(ledger, WalletBook, w), PayoutBook, p)) ==
            if e.wallet == w && e.status.Pending? then e.amount else 0
  {
    RowsCommute(ledger, WalletBook, w, PayoutBook, p);
    RowsAppend([], e, WalletBook, w);
    assert [] + [e] == [e];
    assert Rows([e], WalletBook, w) == if e.wallet == w then [e] else [];
  }

  /** The wallet's share of a payout not yet returned. */
  lemma WalletShare(s: State, p: nat, to: EntryStatus, w: nat)
    requires !to.Success? && !to.Pending?
    requires Inv(s) && p < |s.payouts| && !Returned(s.payouts[p].status)
    ensures Net(VoidEntries(s.ledger, p, to), WalletBook, w) ==
            Net(s.ledger, WalletBook, w) + if s.payouts[p].wallet == w then s.payouts[p].amount else 0
  {
    assert PayoutOk(s, p);
    hide InvExcept, Net, VoidEntries;
    VoidShare(s.ledger, p, to, w, PayoutEntry(s.payouts[p], p));
  }

  lemma VoidedShape(s: State, p: nat)
    requires EntriesOk(s)
    ensures forall e :: e in VoidEntries(s.ledger, p, EntryStatus.Cancelled) ==> Shaped(e) && InRange(s, e)
  {
    forall e | e in VoidEntries(s.ledger, p, EntryStatus.Cancelled)
      ensures Shaped(e) && InRange(s, e)
    {
      var i :| 0 <= i < |s.ledger| && VoidEntries(s.ledger, p, EntryStatus.Cancelled)[i] == e;
      VoidAt(s.ledger, p, EntryStatus.Cancelled, i);
      assert s.ledger[i] in s.ledger;
    }
  }

  /** Returning a payout's money once. */
  lemma ReleaseKeeps(s: State, p: nat, status: PayoutStatus)
    requires Inv(s) && p < |s.payouts| && s.payouts[p].wallet < |s.wallets|
    requires !Returned(s.payouts[p].status) && Returned(status)
    ensures Inv(TransitionPayout(s, p, status, true, false))
  {
    hide Rows, Total, Shaped;
    var s' := TransitionPayout(s, p, status, true, false);
    VoidedShape(s, p);
    forall w | 0 <= w < |s'.wallets|
      ensures WalletOk(s', w)
    {
      assert WalletOk(s, w);
      WalletShare(s, p, EntryStatus.Cancelled, w);
    }
    forall i | 0 <= i < |s'.payouts|
      ensures PayoutOk(s', i)
    {
      assert PayoutOk(s, i);
      VoidedPayout(s, p, i);
    }
  }

  lemma VoidedPayout(s: State, p: nat, i: nat)
    requires p < |s.payouts| && i < |s.payouts| && PayoutOk(s, i)
    ensures Rows(VoidEntries(s.ledger, p, EntryStatus.Cancelled), PayoutBook, i)
            == [Voided(PayoutEntry(s.payouts[i], i), p, EntryStatus.Cancelled)]
  {
    RowsVoid(s.ledger, p, EntryStatus.Cancelled, PayoutBook, i);
    var e := PayoutEntry(s.payouts[i], i);
    VoidAppend([], e, p, EntryStatus.Cancelled);
    assert [] + [e] == [e];
  }

  // ----- every step, every run

  lemma AttemptKeeps(s: State, a: Action)
    requires Inv(s)
    ensures Attempt(s, a).Ok? ==> Inv(Attempt(s, a).value)
  {
    hide Inv, OpenTopUp, CompleteTopUp, FailTopUp, RedeemReward, CreateOrder, UpdateOrderStatus, CancelOrder,
      RequestPayout, TransitionPayout;
    match a
    case OpenTopUpAction(user, amount) => OpenTopUpKeeps(s, user, amount);
    case CompleteTopUpAction(entry) => CompleteTopUpKeeps(s, entry);
    case FailTopUpAction(entry) => FailTopUpKeeps(s, entry);
    case RedeemRewardAction(user, reward, amount) => RedeemRewardKeeps(s, user, reward, amount);
    case CreateOrderAction(user, provider, amount) => CreateOrderKeeps(s, user, provider, amount);
    case UpdateOrderStatusAction(provider, order, next, hasReason) =>
      UpdateOrderStatusKeeps(s, provider, order, next, hasReason);
    case CancelOrderAction(user, order, percent, drift) => CancelOrderKeeps(s, user, order, percent, drift);
    case RefundOrderAction(order) => if order < |s.orders| { SetOrderKeeps(s, order, OrderStatus.Cancelled); }
    case CardAcceptAction(order) => if order < |s.orders| { SetOrderKeeps(s, order, Accepted); }
    case CardFailAction(order) => if order < |s.orders| { SetOrderKeeps(s, order, OrderStatus.Cancelled); }
    case RequestPayoutAction(provider, amount) => RequestPayoutKeeps(s, provider, amount);
    case CancelPayoutAction(provider, payout) =>
      if CancelPayout(s, provider, payout).Ok? { ReleaseKeeps(s, payout, PayoutStatus.Cancelled); }
    case ApproveAction(payout) =>
      if Approve(s, payout).Ok? && Approve(s, payout).value != s { RelabelKeeps(s, payout, PayoutStatus.Processing); }
    case HoldAction(payout) => if Hold(s, payout).Ok? { RelabelKeeps(s, payout, OnHold); }
    case RejectAction(payout) => if Reject(s, payout).Ok? { ReleaseKeeps(s, payout, PayoutStatus.Rejected); }
  }

  /** Every run from the empty tables keeps the invariant. */
  lemma {:induction false} RunKeeps(s: State, actions: seq<Action>)
    requires Inv(s)
    ensures Inv(Run(s, actions))
    decreases |actions|
  {
    hide Inv, Attempt;
    if actions != [] {
      AttemptKeeps(s, actions[0]);
      RunKeeps(Step(s, actions[0]), actions[1..]);
    }
  }

  lemma {:induction false} RunConcat(s: State, a: seq<Action>, b: seq<Action>)
    ensures Run(s, a + b) == Run(Run(s, a), b)
    decreases |a|
  {
    hide Step;
    if a == [] {
      assert a + b == b;
    } else {
      assert (a + b)[1..] == a[1..] + b;
      RunConcat(Step(s, a[0]), a[1..], b);
    }
  }

  lemma RunOne(s: State, a: Action)
    ensures Run(s, [a]) == Step(s, a)
  {
  }

  lemma EmptyOk()
    ensures Inv(EMPTY)
  {
  }

  /** The states some run leads to from empty tables. */
  ghost predicate Reachable(s: State) {
    exists actions :: s == Run(EMPTY, actions)
  }

  lemma ReachableOk(s: State)
    requires Reachable(s)
    ensures Inv(s)
  {
    hide Inv, Run;
    EmptyOk();
    var actions :| s == Run(EMPTY, actions);
    RunKeeps(EMPTY, actions);
  }
}
