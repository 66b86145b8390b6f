/** The rows that hold money (wallets, ledger entries, orders, provider payouts) and every action that
    changes them, each as a function from the rows before to the rows after. Amounts are cents. A row's
    id is its position: rows are only ever appended. */
module Money {
  import opened Results
  import opened Rounding

  datatype Owner = Customer(id: nat) | Provider(id: nat) | Platform

  datatype Wallet = Wallet(owner: Owner, balance: int, giftCredits: int)

  datatype Kind = TopUp | RewardCredit | OrderPayment | OrderEarning | Refund | PlatformFee | Withdrawal

  datatype Direction = Credit | Debit

  datatype EntryStatus = Pending | Success | Failed | Cancelled

  datatype Entry = Entry(wallet: nat, kind: Kind, direction: Direction, amount: int, status: EntryStatus,
                         orderId: Option<nat>, withdrawalId: Option<nat>, rewardId: Option<nat>)

  datatype OrderStatus = Pending | Accepted | Processing | Shipped | Delivered | Completed | Cancelled | Rejected

  datatype Order = Order(user: nat, provider: nat, total: nat, status: OrderStatus)

  datatype PayoutStatus = Pending | Processing | Completed | Failed | Cancelled | OnHold | Rejected

  datatype Payout = Payout(wallet: nat, amount: nat, status: PayoutStatus)

  datatype State = State(wallets: seq<Wallet>, ledger: seq<Entry>, orders: seq<Order>, payouts: seq<Payout>)

  const EMPTY := State([], [], [], [])

  // ----- wallets

  function FindWallet(wallets: seq<Wallet>, owner: Owner): (r: Option<nat>)
    ensures r.Some? ==> r.value < |wallets| && wallets[r.value].owner == owner
    ensures r.None? ==> forall i :: 0 <= i < |wallets| ==> wallets[i].owner != owner
  {
    if wallets == [] then None
    else if wallets[|wallets| - 1].owner == owner then Some(|wallets| - 1)
    else FindWallet(wallets[..|wallets| - 1], owner)
  }

  /** Get or create. */
  function EnsureWallet(s: State, owner: Owner): (r: (State, nat))
    ensures r.1 < |r.0.wallets| && r.0.wallets[r.1].owner == owner
  {
    match FindWallet(s.wallets, owner)
    case Some(w) => (s, w)
    case None => (s.(wallets := s.wallets + [Wallet(owner, 0, 0)]), |s.wallets|)
  }

  function Adjust(s: State, w: nat, balance: int, giftCredits: int): State
    requires w < |s.wallets|
  {
    var wallet := s.wallets[w];
    s.(wallets := s.wallets[w := Wallet(wallet.owner, wallet.balance + balance, wallet.giftCredits + giftCredits)])
  }

  function Record(s: State, e: Entry): State {
    s.(ledger := s.ledger + [e])
  }

  predicate HasOrderEntry(ledger: seq<Entry>, w: nat, order: nat, kind: Kind) {
    exists i :: 0 <= i < |ledger| && ledger[i].wallet == w && ledger[i].orderId == Some(order) && ledger[i].kind == kind
  }

  predicate HasRewardEntry(ledger: seq<Entry>, w: nat, reward: nat) {
    exists i :: 0 <= i < |ledger| && ledger[i].wallet == w && ledger[i].rewardId == Some(reward)
  }

  // ----- top-ups and rewards

  function OpenTopUp(s: State, user: nat, amount: nat): State {
    var (s1, w) := EnsureWallet(s, Customer(user));
    Record(s1, Entry(w, TopUp, Credit, amount, EntryStatus.Pending, None, None, None))
  }

  predicate OpenEntry(s: State, entry: nat) {
    entry < |s.ledger| && s.ledger[entry].kind.TopUp? && s.ledger[entry].status == EntryStatus.Pending
  }

  function SetEntry(s: State, entry: nat, status: EntryStatus): State
    requires entry < |s.ledger|
  {
    s.(ledger := s.ledger[entry := s.ledger[entry].(status := status)])
  }

  /** The conditional PENDING -> SUCCESS flip: only the caller that wins it credits the wallet. */
  function CompleteTopUp(s: State, entry: nat): State
  {
    if OpenEntry(s, entry) && s.ledger[entry].wallet < |s.wallets| then
      Adjust(SetEntry(s, entry, Success), s.ledger[entry].wallet, s.ledger[entry].amount, 0)
    else s
  }

  function FailTopUp(s: State, entry: nat): State {
    if OpenEntry(s, entry) then SetEntry(s, entry, EntryStatus.Failed) else s
  }

  function RedeemReward(s: State, user: nat, reward: nat, amount: nat): State {
    var (s1, w) := EnsureWallet(s, Customer(user));
    if HasRewardEntry(s1.ledger, w, reward) then s1
    else Adjust(Record(s1, Entry(w, RewardCredit, Credit, amount, Success, None, None, Some(reward))), w, 0, amount)
  }

  // ----- orders

  function CreateOrder(s: State, user: nat, provider: nat, total: nat): State {
    s.(orders := s.orders + [Order(user, provider, total, OrderStatus.Pending)])
  }

  function SetOrder(s: State, order: nat, status: OrderStatus): State
    requires order < |s.orders|
  {
    s.(orders := s.orders[order := s.orders[order].(status := status)])
  }

  predicate Allowed(current: OrderStatus, next: OrderStatus) {
    match current
    case Pending => next.Accepted? || next.Rejected? || next.Cancelled?
    case Accepted => next.Processing? || next.Shipped? || next.Cancelled?
    case Processing => next.Shipped? || next.Cancelled?
    case Shipped => next.Delivered? || next.Cancelled?
    case Delivered => next.Completed?
    case _ => false
  }

  function Min(a: int, b: int): int {
    if a < b then a else b
  }

  /** Gift credits first, then cash; refused when they do not suffice; only once per order. */
  function DebitCustomer(s: State, user: nat, order: nat, amount: nat): (r: Result<State>)
    ensures r.Ok? ==> r.value.orders == s.orders
  {
    match FindWallet(s.wallets, Customer(user))
    case None => Result.Failed("Customer wallet not found. The customer must top up before this order can be accepted.")
    case Some(w) =>
      var wallet := s.wallets[w];
      if HasOrderEntry(s.ledger, w, order, OrderPayment) then Ok(s)
      else if wallet.giftCredits + wallet.balance < amount then
        Result.Failed("Customer has insufficient wallet balance to pay for this order.")
      else
        var credits := Min(wallet.giftCredits, amount);
        Ok(Adjust(Record(s, Entry(w, OrderPayment, Debit, amount, Success, Some(order), None, None)),
                  w, credits - amount, -credits))
  }

  /** Credits the provider, only once per order. */
  function EarnOrder(s: State, provider: nat, order: nat, amount: nat): State {
    var (s1, w) := EnsureWallet(s, Provider(provider));
    if HasOrderEntry(s1.ledger, w, order, OrderEarning) then s1
    else Adjust(Record(s1, Entry(w, OrderEarning, Credit, amount, Success, Some(order), None, None)), w, amount, 0)
  }

  function UpdateOrderStatus(s: State, provider: nat, order: nat, next: OrderStatus, hasReason: bool): Result<State> {
    if order >= |s.orders| || s.orders[order].provider != provider then Result.Failed("Provider order not found")
    else
      var o := s.orders[order];
      if o.status.Cancelled? || o.status.Rejected? then Result.Failed("Cannot update a closed order")
      else if !Allowed(o.status, next) then Result.Failed("Invalid status transition")
      else if next.Rejected? && !hasReason then Result.Failed("Reason is required when rejecting an order")
      else
        var debited := if o.status.Pending? && next.Accepted? then DebitCustomer(s, o.user, order, o.total) else Ok(s);
        if debited.Failed? then debited
        else
          var s1 := SetOrder(debited.value, order, next);
          Ok(if next.Delivered? || next.Completed? then EarnOrder(s1, provider, order, o.total) else s1)
  }

  /** The cancellation policy's deduction, in hundredths of a percent. */
  type Percent = n: nat | n <= 10000

  /** How far the percentage as computed in floating point, before rounding, is from its exact value. */
  type Drift = e: real | -0.000001 < e < 0.000001 witness 0.0

  /** The platform's share of a cancelled order, in cents. */
  function Deduction(total: nat, percent: Percent, drift: Drift): (d: nat)
    ensures d <= total
  {
    var exact := (total * percent) as real / 1000000.0;
    DeductionInRange(total, percent, drift);
    ToFixed(exact + drift)
  }

  lemma DeductionInRange(total: nat, percent: Percent, drift: Drift)
    ensures 0 <= ToFixed((total * percent) as real / 1000000.0 + drift) <= total
  {
    assert total * percent <= total * 10000;
  }

  function CompensateCustomer(s: State, user: nat, order: nat, amount: int): (r: State)
    ensures r.orders == s.orders
  {
    if amount <= 0 then s
    else
      match FindWallet(s.wallets, Customer(user))
      case None => s
      case Some(w) =>
        if HasOrderEntry(s.ledger, w, order, Refund) then s
        else Adjust(Record(s, Entry(w, Refund, Credit, amount, Success, Some(order), None, None)), w, amount, 0)
  }

  function CollectFee(s: State, order: nat, amount: int): (r: State)
    ensures r.orders == s.orders
  {
    if amount <= 0 then s
    else
      var (s1, w) := EnsureWallet(s, Platform);
      if HasOrderEntry(s1.ledger, w, order, PlatformFee) then s1
      else Adjust(Record(s1, Entry(w, PlatformFee, Credit, amount, Success, Some(order), None, None)), w, amount, 0)
  }

  /** The customer cancels an accepted order: refund to the wallet, deduction to the platform. */
  function CancelOrder(s: State, user: nat, order: nat, percent: Percent, drift: Drift): (r: Result<State>)
    ensures r.Ok? ==> order < |s.orders| && s.orders[order].user == user
  {
    if order >= |s.orders| || s.orders[order].user != user then Result.Failed("Order not found")
    else
      var o := s.orders[order];
      if !o.status.Accepted? && !o.status.Processing? then
        Result.Failed("Order can only be cancelled when status is ACCEPTED or PROCESSING")
      else
        var d := Deduction(o.total, percent, drift);
        var s1 := CollectFee(CompensateCustomer(s, user, order, o.total - d), order, d);
        Ok(SetOrder(s1, order, OrderStatus.Cancelled))
  }

  /** A settled refund request cancels its order, whatever its status, and moves no wallet money. */
  function RefundOrder(s: State, order: nat): Result<State> {
    if order >= |s.orders| then Result.Failed("Order not found") else Ok(SetOrder(s, order, OrderStatus.Cancelled))
  }

  /** A confirmed card payment accepts its order, whatever its status, and charges no wallet. */
  function CardAccept(s: State, order: nat): Result<State> {
    if order >= |s.orders| then Result.Failed("Order not found") else Ok(SetOrder(s, order, Accepted))
  }

  /** A failed card payment cancels its order, whatever its status. */
  function CardFail(s: State, order: nat): Result<State> {
    if order >= |s.orders| then Result.Failed("Order not found") else Ok(SetOrder(s, order, OrderStatus.Cancelled))
  }

  // ----- payouts

  function RequestPayout(s: State, provider: nat, amount: nat): Result<State> {
    if amount == 0 then Result.Failed("Payout amount must be greater than 0")
    else
      match FindWallet(s.wallets, Provider(provider))
      case None => Result.Failed("Payout amount exceeds available balance")
      case Some(w) =>
        if amount > s.wallets[w].balance then Result.Failed("Payout amount exceeds available balance")
        else
          var payout := |s.payouts|;
          var s1 := s.(payouts := s.payouts + [Payout(w, amount, PayoutStatus.Pending)]);
          Ok(Adjust(Record(s1, Entry(w, Withdrawal, Debit, amount, EntryStatus.Pending, None, Some(payout), None)), w,
            -(amount as int), 0))
  }

  /** `updateMany` over the pending entries of a payout. */
  function VoidEntries(ledger: seq<Entry>, payout: nat, to: EntryStatus): (r: seq<Entry>)
    ensures |r| == |ledger|
  {
    if ledger == [] then []
    else
      var last := ledger[|ledger| - 1];
      VoidEntries(ledger[..|ledger| - 1], payout, to)
      + [if last.withdrawalId == Some(payout) && last.status == EntryStatus.Pending then last.(status := to) else last]
  }

  /** `transitionPayout`: with `release` the money goes back and its debit entry is voided, with `settle` the
      debit becomes final. No action settles. */
  function TransitionPayout(s: State, payout: nat, status: PayoutStatus, release: bool, settle: bool): State
    requires payout < |s.payouts| && s.payouts[payout].wallet < |s.wallets|
  {
    var p := s.payouts[payout];
    var s1 := if !release then s
              else Adjust(s.(ledger := VoidEntries(s.ledger, payout, EntryStatus.Cancelled)), p.wallet, p.amount, 0);
    var s2 := if settle then s1.(ledger := VoidEntries(s1.ledger, payout, Success)) else s1;
    s2.(payouts := s2.payouts[payout := p.(status := status)])
  }

  predicate KnownPayout(s: State, payout: nat) {
    payout < |s.payouts| && s.payouts[payout].wallet < |s.wallets|
  }

  function Approve(s: State, payout: nat): (r: Result<State>)
    ensures r.Ok? ==> payout < |s.payouts| && |r.value.payouts| == |s.payouts|
  {
    if !KnownPayout(s, payout) then Result.Failed("Provider payout not found")
    else if s.payouts[payout].status.Processing? || s.payouts[payout].status.Completed? then Ok(s)
    else if !s.payouts[payout].status.Pending? && !s.payouts[payout].status.OnHold? then
      Result.Failed("Only PENDING or ON_HOLD payout can be approved")
    else Ok(TransitionPayout(s, payout, PayoutStatus.Processing, false, false))
  }

  function Hold(s: State, payout: nat): Result<State> {
    if !KnownPayout(s, payout) then Result.Failed("Provider payout not found")
    else if !s.payouts[payout].status.Pending? then Result.Failed("Only PENDING payout can be placed on hold")
    else Ok(TransitionPayout(s, payout, OnHold, false, false))
  }

  function Reject(s: State, payout: nat): Result<State> {
    if !KnownPayout(s, payout) then Result.Failed("Provider payout not found")
    else if !s.payouts[payout].status.Pending? && !s.payouts[payout].status.OnHold? then
      Result.Failed("Only PENDING or ON_HOLD payout can be rejected")
    else Ok(TransitionPayout(s, payout, PayoutStatus.Rejected, true, false))
  }

  function CancelPayout(s: State, provider: nat, payout: nat): Result<State> {
    if !KnownPayout(s, payout) || s.wallets[s.payouts[payout].wallet].owner != Provider(provider) then
      Result.Failed("Provider payout not found")
    else if !s.payouts[payout].status.Pending? then Result.Failed("Only pending payouts can be cancelled")
    else Ok(TransitionPayout(s, payout, PayoutStatus.Cancelled, true, false))
  }

  /** `returnFailedPayoutBalance`: gives the money back whatever the payout's status. */
  function ReturnFailedPayout(s: State, provider: nat, payout: nat): State {
    if !KnownPayout(s, payout) || s.wallets[s.payouts[payout].wallet].owner != Provider(provider) then s
    else
      var p := s.payouts[payout];
      var s1 := s.(payouts := s.payouts[payout := p.(status := PayoutStatus.Failed)],
                   ledger := VoidEntries(s.ledger, payout, EntryStatus.Failed));
      Adjust(s1, p.wallet, p.amount, 0)
  }

  // ----- runs

  datatype Action =
    | OpenTopUpAction(user: nat, amount: nat)
    | CompleteTopUpAction(entry: nat)
    | FailTopUpAction(entry: nat)
    | RedeemRewardAction(user: nat, reward: nat, amount: nat)
    | CreateOrderAction(user: nat, provider: nat, amount: nat)
    | UpdateOrderStatusAction(provider: nat, order: nat, next: OrderStatus, hasReason: bool)
    | CancelOrderAction(user: nat, order: nat, percent: Percent, drift: Drift)
    | RefundOrderAction(order: nat)
    | CardAcceptAction(order: nat)
    | CardFailAction(order: nat)
    | RequestPayoutAction(provider: nat, amount: nat)
    | CancelPayoutAction(provider: nat, payout: nat)
    | ApproveAction(payout: nat)
    | HoldAction(payout: nat)
    | RejectAction(payout: nat)

  function Attempt(s: State, a: Action): Result<State> {
    match a
    case OpenTopUpAction(user, amount) => Ok(OpenTopUp(s, user, amount))
    case CompleteTopUpAction(entry) => Ok(CompleteTopUp(s, entry))
    case FailTopUpAction(entry) => Ok(FailTopUp(s, entry))
    case RedeemRewardAction(user, reward, amount) => Ok(RedeemReward(s, user, reward, amount))
    case CreateOrderAction(user, provider, amount) => Ok(CreateOrder(s, user, provider, amount))
    case UpdateOrderStatusAction(provider, order, next, hasReason) =>
      UpdateOrderStatus(s, provider, order, next, hasReason)
    case CancelOrderAction(user, order, percent, drift) => CancelOrder(s, user, order, percent, drift)
    case RefundOrderAction(order) => RefundOrder(s, order)
    case CardAcceptAction(order) => CardAccept(s, order)
    case CardFailAction(order) => CardFail(s, order)
    case RequestPayoutAction(provider, amount) => RequestPayout(s, provider, amount)
    case CancelPayoutAction(provider, payout) => CancelPayout(s, provider, payout)
    case ApproveAction(payout) => Approve(s, payout)
    case HoldAction(payout) => Hold(s, payout)
    case RejectAction(payout) => Reject(s, payout)
  }

  /** A refused action is rolled back. */
  function Step(s: State, a: Action): State {
    match Attempt(s, a)
    case Ok(next) => next
    case Failed(_) => s
  }

  function Run(s: State, actions: seq<Action>): State
    decreases actions
  {
    if actions == [] then s else Run(Step(s, actions[0]), actions[1..])
  }
}
