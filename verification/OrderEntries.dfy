/** The ledger entries of one order: which ones each action adds, and what its status says about them. */
module OrderEntries {
  import opened Results
  import opened Money
  import opened Ledger
  import opened MoneyInvariant
  import opened Orders

  function RowsOf(s: State, o: nat): seq<Entry> {
    Rows(s.ledger, OrderBook, o)
  }

  predicate HasRow(rows: seq<Entry>, kind: Kind) {
    exists i :: 0 <= i < |rows| && rows[i].kind == kind
  }

  predicate HasKind(ledger: seq<Entry>, o: nat, kind: Kind) {
    exists e :: e in ledger && e.orderId == Some(o) && e.kind == kind
  }

  lemma HasKindInRows(s: State, o: nat, kind: Kind)
    ensures HasKind(s.ledger, o, kind) <==> HasRow(RowsOf(s, o), kind)
  {
    var rows := RowsOf(s, o);
    if HasKind(s.ledger, o, kind) {
      var e :| e in s.ledger && e.orderId == Some(o) && e.kind == kind;
      RowsFrom(s.ledger, OrderBook, o, e);
      var i :| 0 <= i < |rows| && rows[i] == e;
    }
    if i :| 0 <= i < |rows| && rows[i].kind == kind {
      RowsFrom(s.ledger, OrderBook, o, rows[i]);
    }
  }

  /** An order paid from the wallet, and neither earned nor given back. */
  predicate IsHeld(s: State, o: nat) {
    && HasKind(s.ledger, o, OrderPayment)
    && !HasKind(s.ledger, o, OrderEarning)
    && !HasKind(s.ledger, o, Refund)
    && !HasKind(s.ledger, o, PlatformFee)
  }

  // ----- what actions add

  /** One entry of a kind is added unless there is one already. */
  ghost predicate Gains(rows: seq<Entry>, after: seq<Entry>, kind: Kind, amount: int) {
    if HasRow(rows, kind) then after == rows
    else
      && |after| == |rows| + 1 && after == rows + [after[|rows|]]
      && after[|rows|].kind == kind && after[|rows|].amount == amount
  }

  /** Looking for an entry on the party's wallet is looking for it among the order's. */
  lemma EntryIsRow(s: State, w: nat, o: nat, kind: Kind)
    requires Inv(s) && o < |s.orders| && w < |s.wallets| && s.wallets[w].owner == Party(s.orders[o], kind)
    ensures HasOrderEntry(s.ledger, w, o, kind) <==> HasRow(RowsOf(s, o), kind)
  {
    hide RowsOf, Shaped;
    HasKindInRows(s, o, kind);
    if e :| e in s.ledger && e.orderId == Some(o) && e.kind == kind {
      assert InRange(s, e);
      assert e.wallet == w;
    }
  }

  lemma BookGains(s: State, s': State, o: nat, e: Entry)
    requires s'.ledger == s.ledger + [e] && e.orderId == Some(o) && !HasRow(RowsOf(s, o), e.kind)
    ensures Gains(RowsOf(s, o), RowsOf(s', o), e.kind, e.amount)
  {
    RowsAppend(s.ledger, e, OrderBook, o);
    hide Rows;
  }

  lemma DebitGains(s: State, o: nat)
    requires Inv(s) && o < |s.orders|
    ensures var r := DebitCustomer(s, s.orders[o].user, o, s.orders[o].total);
            r.Ok? ==> Gains(RowsOf(s, o), RowsOf(r.value, o), OrderPayment, s.orders[o].total)
  {
    hide Inv, RowsOf, HasRow, HasOrderEntry;
    var order := s.orders[o];
    var found, r := FindWallet(s.wallets, Customer(order.user)), DebitCustomer(s, order.user, o, order.total);
    if r.Ok? {
      EntryIsRow(s, found.value, o, OrderPayment);
      if r.value != s {
        BookGains(s, r.value, o, Entry(found.value, OrderPayment, Debit, order.total, Success, Some(o), None, None));
      }
    }
  }

  lemma EarnGains(s: State, o: nat)
    requires Inv(s) && o < |s.orders|
    ensures var s' := EarnOrder(s, s.orders[o].provider, o, s.orders[o].total);
            Gains(RowsOf(s, o), RowsOf(s', o), OrderEarning, s.orders[o].total)
  {
    hide Inv, Rows, HasRow, HasOrderEntry, FindWallet;
    var order := s.orders[o];
    InvIs(s);
    EnsureWalletKeeps(s, Provider(order.provider), {});
    var (s1, w) := EnsureWallet(s, Provider(order.provider));
    InvIs(s1);
    EntryIsRow(s1, w, o, OrderEarning);
    if !HasRow(RowsOf(s1, o), OrderEarning) {
      var e := Entry(w, OrderEarning, Credit, order.total, Success, Some(o), None, None);
      BookGains(s1, EarnOrder(s, order.provider, o, order.total), o, e);
    }
  }

  lemma InvIs(s: State)
    ensures Inv(s) <==> InvExcept(s, {})
  {
  }

  lemma CompensateGains(s: State, o: nat, amount: int)
    requires Inv(s) && o < |s.orders|
    ensures var s' := CompensateCustomer(s, s.orders[o].user, o, amount);
            if amount > 0 && FindWallet(s.wallets, Customer(s.orders[o].user)).Some?
            then Gains(RowsOf(s, o), RowsOf(s', o), Refund, amount) else s' == s
  {
    hide Inv, RowsOf, HasRow, HasOrderEntry;
    var found := FindWallet(s.wallets, Customer(s.orders[o].user));
    if found.Some? && amount > 0 {
      EntryIsRow(s, found.value, o, Refund);
      if !HasRow(RowsOf(s, o), Refund) {
        var e := Entry(found.value, Refund, Credit, amount, Success, Some(o), None, None);
        BookGains(s, CompensateCustomer(s, s.orders[o].user, o, amount), o, e);
      }
    }
  }

  lemma CollectGains(s: State, o: nat, amount: int)
    requires Inv(s) && o < |s.orders|
    ensures var s' := CollectFee(s, o, amount);
            if amount > 0 then Gains(RowsOf(s, o), RowsOf(s', o), PlatformFee, amount) else s' == s
  {
    hide Inv, Rows, HasRow, HasOrderEntry, FindWallet;
    if amount > 0 {
      InvIs(s);
      EnsureWalletKeeps(s, Platform, {});
      var (s1, w) := EnsureWallet(s, Platform);
      InvIs(s1);
      EntryIsRow(s1, w, o, PlatformFee);
      if !HasRow(RowsOf(s1, o), PlatformFee) {
        BookGains(s1, CollectFee(s, o, amount), o, Entry(w, PlatformFee, Credit, amount, Success, Some(o), None, None));
      }
    }
  }

  /** What a status change adds to an order's entries. */
  ghost predicate Adds(rows: seq<Entry>, after: seq<Entry>, next: OrderStatus, total: nat) {
    if next.Accepted? then Gains(rows, after, OrderPayment, total)
    else if next.Delivered? || next.Completed? then Gains(rows, after, OrderEarning, total)
    else after == rows
  }

  lemma UpdateGains(s: State, provider: nat, o: nat, next: OrderStatus, hasReason: bool)
    requires Inv(s)
    ensures var r := UpdateOrderStatus(s, provider, o, next, hasReason);
            r.Ok? ==> o < |s.orders| && Adds(RowsOf(s, o), RowsOf(r.value, o), next, s.orders[o].total)
  {
    hide DebitCustomer, EarnOrder, Inv, Gains, Rows;
    var r := UpdateOrderStatus(s, provider, o, next, hasReason);
    if r.Ok? {
      DebitGains(s, o);
      SetOrderKeeps(s, o, next);
      EarnGains(SetOrder(s, o, next), o);
    }
  }

  /** What a cancellation adds: the refund, then the fee, each at most once. */
  ghost predicate GivesBack(rows: seq<Entry>, mid: seq<Entry>, after: seq<Entry>, refund: int, fee: int) {
    && (if refund > 0 then Gains(rows, mid, Refund, refund) else mid == rows)
    && (if fee > 0 then Gains(mid, after, PlatformFee, fee) else after == mid)
  }

  lemma CancelGains(s: State, user: nat, o: nat, percent: Percent, drift: Drift) returns (mid: seq<Entry>)
    requires Inv(s) && CancelOrder(s, user, o, percent, drift).Ok?
    ensures var total, s' := s.orders[o].total, CancelOrder(s, user, o, percent, drift).value;
            var d := Deduction(total, percent, drift);
            var refund := if FindWallet(s.wallets, Customer(user)).Some? then total - d else 0;
            GivesBack(RowsOf(s, o), mid, RowsOf(s', o), refund, d)
  {
    hide CompensateCustomer, CollectFee, Deduction, Inv, Gains, Rows, FindWallet;
    var d := Deduction(s.orders[o].total, percent, drift);
    var s1 := CompensateCustomer(s, user, o, s.orders[o].total - d);
    CompensateKeeps(s, o, s.orders[o].total - d);
    CompensateGains(s, o, s.orders[o].total - d);
    CollectGains(s1, o, d);
    mid := RowsOf(s1, o);
  }

  // ----- what actions leave alone

  /** Only entries of other orders are added, or none. */
  ghost predicate AddsElsewhere(ledger: seq<Entry>, after: seq<Entry>, o: nat) {
    && |ledger| <= |after| && after[..|ledger|] == ledger
    && forall i :: |ledger| <= i < |after| ==> after[i].orderId != Some(o)
  }

  lemma {:induction false} ElsewhereSame(ledger: seq<Entry>, after: seq<Entry>, o: nat)
    requires AddsElsewhere(ledger, after, o)
    ensures Rows(after, OrderBook, o) == Rows(ledger, OrderBook, o)
    decreases |after|
  {
    if |after| == |ledger| {
      assert after == ledger;
    } else {
      var init, last := after[..|after| - 1], after[|after| - 1];
      assert after == init + [last] && init[..|ledger|] == ledger;
      RowsAppend(init, last, OrderBook, o);
      ElsewhereSame(ledger, init, o);
    }
  }

  lemma SameOrOneMore(ledger: seq<Entry>, after: seq<Entry>, o: nat)
    requires after == ledger || (|after| == |ledger| + 1 && after == ledger + [after[|ledger|]]
             && after[|ledger|].orderId != Some(o))
    ensures AddsElsewhere(ledger, after, o)
  {
  }

  lemma ElsewhereTwice(a: seq<Entry>, b: seq<Entry>, c: seq<Entry>, o: nat)
    requires AddsElsewhere(a, b, o) && AddsElsewhere(b, c, o)
    ensures AddsElsewhere(a, c, o)
  {
    assert c[..|a|] == c[..|b|][..|a|];
    forall i | |a| <= i < |c|
      ensures c[i].orderId != Some(o)
    {
      if i < |b| {
        assert c[i] == c[..|b|][i];
      }
    }
  }

  lemma DebitElsewhere(s: State, user: nat, order: nat, amount: nat, o: nat)
    requires order != o
    ensures var r := DebitCustomer(s, user, order, amount); r.Ok? ==> AddsElsewhere(s.ledger, r.value.ledger, o)
  {
    hide FindWallet, HasOrderEntry, AddsElsewhere;
    var r := DebitCustomer(s, user, order, amount);
    if r.Ok? {
      SameOrOneMore(s.ledger, r.value.ledger, o);
    }
  }

  lemma EarnElsewhere(s: State, provider: nat, order: nat, amount: nat, o: nat)
    requires order != o
    ensures AddsElsewhere(s.ledger, EarnOrder(s, provider, order, amount).ledger, o)
  {
    hide FindWallet, HasOrderEntry, AddsElsewhere;
    SameOrOneMore(s.ledger, EarnOrder(s, provider, order, amount).ledger, o);
  }

  /** An accepted update charges, earns, or only sets the status. */
  lemma UpdateIs(s: State, provider: nat, order: nat, next: OrderStatus, hasReason: bool)
    requires UpdateOrderStatus(s, provider, order, next, hasReason).Ok?
    ensures order < |s.orders| && s.orders[order].provider == provider
    ensures var o, s' := s.orders[order], UpdateOrderStatus(s, provider, order, next, hasReason).value;
            var charged := DebitCustomer(s, o.user, order, o.total);
            || (charged.Ok? && s' == SetOrder(charged.value, order, next))
            || s' == EarnOrder(SetOrder(s, order, next), provider, order, o.total)
            || s' == SetOrder(s, order, next)
  {
    hide DebitCustomer, EarnOrder;
  }

  lemma UpdateElsewhere(s: State, provider: nat, order: nat, next: OrderStatus, hasReason: bool, o: nat)
    requires order != o
    ensures var r := UpdateOrderStatus(s, provider, order, next, hasReason);
            r.Ok? ==> AddsElsewhere(s.ledger, r.value.ledger, o)
  {
    hide DebitCustomer, EarnOrder, AddsElsewhere, Allowed, UpdateOrderStatus;
    var r := UpdateOrderStatus(s, provider, order, next, hasReason);
    if r.Ok? {
      UpdateIs(s, provider, order, next, hasReason);
      SameOrOneMore(s.ledger, s.ledger, o);
      DebitElsewhere(s, s.orders[order].user, order, s.orders[order].total, o);
      EarnElsewhere(SetOrder(s, order, next), provider, order, s.orders[order].total, o);
    }
  }

  lemma BackElsewhere(s: State, user: nat, order: nat, amount: int, o: nat)
    requires order != o
    ensures AddsElsewhere(s.ledger, CompensateCustomer(s, user, order, amount).ledger, o)
    ensures AddsElsewhere(s.ledger, CollectFee(s, order, amount).ledger, o)
  {
    hide FindWallet, HasOrderEntry, AddsElsewhere;
    SameOrOneMore(s.ledger, CompensateCustomer(s, user, order, amount).ledger, o);
    SameOrOneMore(s.ledger, CollectFee(s, order, amount).ledger, o);
  }

  lemma CancelElsewhere(s: State, user: nat, order: nat, percent: Percent, drift: Drift, o: nat)
    requires order != o
    ensures var r := CancelOrder(s, user, order, percent, drift);
            r.Ok? ==> AddsElsewhere(s.ledger, r.value.ledger, o)
  {
    hide CompensateCustomer, CollectFee, AddsElsewhere, Deduction;
    if CancelOrder(s, user, order, percent, drift).Ok? {
      var total, d := s.orders[order].total, Deduction(s.orders[order].total, percent, drift);
      var s1 := CompensateCustomer(s, user, order, total - d);
      BackElsewhere(s, user, order, total - d, o);
      BackElsewhere(s1, user, order, d, o);
      ElsewhereTwice(s.ledger, s1.ledger, CollectFee(s1, order, d).ledger, o);
    }
  }

  /** An action that does not work on the order leaves its entries as they are. */
  lemma OtherRows(s: State, a: Action, o: nat)
    requires Inv(s) && !WorksOn(a, o)
    ensures RowsOf(Step(s, a), o) == RowsOf(s, o)
  {
    hide UpdateOrderStatus, CancelOrder, FindWallet, VoidEntries, HasRewardEntry, Rows, Inv;
    if a.UpdateOrderStatusAction? {
      UpdateElsewhere(s, a.provider, a.order, a.next, a.hasReason, o);
      if Step(s, a) != s { ElsewhereSame(s.ledger, Step(s, a).ledger, o); }
    } else if a.CancelOrderAction? {
      CancelElsewhere(s, a.user, a.order, a.percent, a.drift, o);
      if Step(s, a) != s { ElsewhereSame(s.ledger, Step(s, a).ledger, o); }
    } else if a.RejectAction? || a.CancelPayoutAction? {
      UntouchedOrder(s, a.payout, o);
    } else if a.CompleteTopUpAction? || a.FailTopUpAction? {
      TopUpElsewhere(s, a.entry, o);
    } else {
      ElsewhereSame(s.ledger, Step(s, a).ledger, o);
    }
  }

  lemma UntouchedOrder(s: State, p: nat, o: nat)
    requires Inv(s)
    ensures Rows(VoidEntries(s.ledger, p, EntryStatus.Cancelled), OrderBook, o) == Rows(s.ledger, OrderBook, o)
  {
    RowsVoid(s.ledger, p, EntryStatus.Cancelled, OrderBook, o);
    var rows := Rows(s.ledger, OrderBook, o);
    forall e | e in rows
      ensures e.withdrawalId != Some(p)
    {
      RowsFrom(s.ledger, OrderBook, o, e);
      assert Shaped(e);
    }
    VoidNothing(rows, p, EntryStatus.Cancelled);
  }

  lemma TopUpElsewhere(s: State, entry: nat, o: nat)
    requires Inv(s)
    ensures Rows(CompleteTopUp(s, entry).ledger, OrderBook, o) == Rows(s.ledger, OrderBook, o)
    ensures Rows(FailTopUp(s, entry).ledger, OrderBook, o) == Rows(s.ledger, OrderBook, o)
  {
    if OpenEntry(s, entry) {
      var e := s.ledger[entry];
      assert e in s.ledger && Shaped(e);
      RowsSetElsewhere(s.ledger, entry, e.(status := Success), OrderBook, o);
      RowsSetElsewhere(s.ledger, entry, e.(status := EntryStatus.Failed), OrderBook, o);
    }
  }

  // ----- each kind once

  ghost predicate KindsDiffer(rows: seq<Entry>) {
    forall i, j :: 0 <= i < j < |rows| ==> rows[i].kind != rows[j].kind
  }

  lemma GainsDiffer(rows: seq<Entry>, after: seq<Entry>, kind: Kind, amount: int)
    requires KindsDiffer(rows) && Gains(rows, after, kind, amount)
    ensures KindsDiffer(after)
  {
  }

  lemma StepKindsDiffer(s: State, a: Action, o: nat)
    requires Inv(s) && KindsDiffer(RowsOf(s, o))
    ensures KindsDiffer(RowsOf(Step(s, a), o))
  {
    hide UpdateOrderStatus, CancelOrder, RowsOf, Inv, KindsDiffer, Gains, Deduction, FindWallet;
    var rows, after := RowsOf(s, o), RowsOf(Step(s, a), o);
    if !WorksOn(a, o) {
      OtherRows(s, a, o);
    } else if Attempt(s, a).Ok? {
      if a.UpdateOrderStatusAction? {
        UpdateGains(s, a.provider, o, a.next, a.hasReason);
        if a.next.Accepted? {
          GainsDiffer(rows, after, OrderPayment, s.orders[o].total);
        } else if after != rows {
          GainsDiffer(rows, after, OrderEarning, s.orders[o].total);
        }
      } else {
        var d := Deduction(s.orders[o].total, a.percent, a.drift);
        var mid := CancelGains(s, a.user, o, a.percent, a.drift);
        if mid != rows { GainsDiffer(rows, mid, Refund, s.orders[o].total - d); }
        if after != mid { GainsDiffer(mid, after, PlatformFee, d); }
      }
    }
  }

  lemma {:induction false} RunKindsDiffer(s: State, actions: seq<Action>, o: nat)
    requires Inv(s) && KindsDiffer(RowsOf(s, o))
    ensures KindsDiffer(RowsOf(Run(s, actions), o))
    decreases |actions|
  {
    hide Inv, Attempt, KindsDiffer, RowsOf;
    if actions != [] {
      StepKindsDiffer(s, actions[0], o);
      AttemptKeeps(s, actions[0]);
      RunKindsDiffer(Step(s, actions[0]), actions[1..], o);
    }
  }

  /** Number of ledger entries of a kind for an order. */
  function CountKind(ledger: seq<Entry>, o: nat, kind: Kind): nat {
    if ledger == [] then 0
    else
      var e := ledger[|ledger| - 1];
      CountKind(ledger[..|ledger| - 1], o, kind) + if e.orderId == Some(o) && e.kind == kind then 1 else 0
  }

  lemma CountAppend(ledger: seq<Entry>, e: Entry, o: nat, kind: Kind)
    ensures CountKind(ledger + [e], o, kind) ==
            CountKind(ledger, o, kind) + if e.orderId == Some(o) && e.kind == kind then 1 else 0
  {
    assert (ledger + [e])[..|ledger|] == ledger;
  }

  lemma {:induction false} CountRows(ledger: seq<Entry>, o: nat, kind: Kind)
    ensures CountKind(ledger, o, kind) == CountKind(Rows(ledger, OrderBook, o), o, kind)
  {
    if ledger != [] {
      hide CountKind, Rows;
      var init, last := ledger[..|ledger| - 1], ledger[|ledger| - 1];
      assert ledger == init + [last];
      CountRows(init, o, kind);
      CountAppend(init, last, o, kind);
      RowsAppend(init, last, OrderBook, o);
      if last.orderId == Some(o) {
        CountAppend(Rows(init, OrderBook, o), last, o, kind);
      } else {
        assert Rows(init, OrderBook, o) + [] == Rows(init, OrderBook, o);
      }
    }
  }

  lemma {:induction false} CountDiffering(rows: seq<Entry>, o: nat, kind: Kind)
    requires KindsDiffer(rows) && forall i :: 0 <= i < |rows| ==> rows[i].orderId == Some(o)
    ensures CountKind(rows, o, kind) == if HasRow(rows, kind) then 1 else 0
  {
    if rows != [] {
      var init, last := rows[..|rows| - 1], rows[|rows| - 1];
      CountDiffering(init, o, kind);
      if i :| 0 <= i < |init| && init[i].kind == kind {
        assert rows[i].kind == kind;
      }
      if last.kind == kind {
        assert rows[|rows| - 1].kind == kind;
      }
    }
  }

  lemma CountOne(s: State, o: nat, kind: Kind)
    requires KindsDiffer(RowsOf(s, o))
    ensures CountKind(s.ledger, o, kind) == if HasKind(s.ledger, o, kind) then 1 else 0
  {
    hide KindsDiffer, HasRow, HasKind;
    var rows := RowsOf(s, o);
    forall i | 0 <= i < |rows|
      ensures rows[i].orderId == Some(o)
    {
      RowsFrom(s.ledger, OrderBook, o, rows[i]);
    }
    HasKindInRows(s, o, kind);
    CountDiffering(rows, o, kind);
    CountRows(s.ledger, o, kind);
  }

  /** What happens to an order's money happens once: in no run, whatever writes its status, has an order two
      entries of the same kind. */
  lemma EachKindOnce(actions: seq<Action>, o: nat, kind: Kind)
    ensures CountKind(Run(EMPTY, actions).ledger, o, kind) <= 1
  {
    EmptyOk();
    RunKindsDiffer(EMPTY, actions, o);
    CountOne(Run(EMPTY, actions), o, kind);
  }

  // ----- what the status says

  predicate Are(rows: seq<Entry>, kinds: seq<Kind>) {
    |rows| == |kinds| && forall i :: 0 <= i < |rows| ==> rows[i].kind == kinds[i]
  }

  /** Paid and given back: a refund, a fee or both, together the order's total. */
  predicate Compensated(total: nat, rows: seq<Entry>) {
    || (|rows| == 2 && (Are(rows, [OrderPayment, Refund]) || Are(rows, [OrderPayment, PlatformFee]))
        && rows[1].amount == total)
    || (Are(rows, [OrderPayment, Refund, PlatformFee]) && rows[1].amount + rows[2].amount == total)
  }

  /** The ledger entries of an order, by its status. */
  predicate RowsFit(order: Order, rows: seq<Entry>) {
    match order.status
    case Pending => rows == []
    case Rejected => rows == []
    case Delivered => Are(rows, [OrderPayment, OrderEarning])
    case Completed => Are(rows, [OrderPayment, OrderEarning])
    case Cancelled =>
      || rows == []
      || Are(rows, [OrderPayment])
      || Are(rows, [OrderPayment, OrderEarning])
      || Compensated(order.total, rows)
    case _ => Are(rows, [OrderPayment])
  }

  ghost predicate OrderOk(s: State, o: nat)
    requires o < |s.orders|
  {
    RowsFit(s.orders[o], RowsOf(s, o))
  }

  /** An order is held exactly when its one entry is its payment. */
  lemma HeldIsPayment(s: State, o: nat)
    requires o < |s.orders| && OrderOk(s, o)
    ensures IsHeld(s, o) <==> Are(RowsOf(s, o), [OrderPayment])
  {
    hide RowsOf, HasKind;
    HasKindInRows(s, o, OrderPayment);
    HasKindInRows(s, o, OrderEarning);
    HasKindInRows(s, o, Refund);
    HasKindInRows(s, o, PlatformFee);
    var rows := RowsOf(s, o);
    if rows != [] {
      assert rows[0].kind == OrderPayment;
    }
    if |rows| > 1 {
      assert HasRow(rows, rows[1].kind) && !rows[1].kind.OrderPayment?;
    }
  }

  /** A row of an order is an entry of one of its parties. */
  lemma RowOfParty(s: State, o: nat, i: nat)
    requires Inv(s) && i < |RowsOf(s, o)|
    ensures var e := RowsOf(s, o)[i]; e.orderId == Some(o) && Shaped(e) && OfParty(s, e, o)
  {
    var e := RowsOf(s, o)[i];
    RowsFrom(s.ledger, OrderBook, o, e);
    assert InRange(s, e);
  }

  lemma NextFits(order: Order, next: OrderStatus, rows: seq<Entry>, after: seq<Entry>)
    requires RowsFit(order, rows) && Allowed(order.status, next) && Adds(rows, after, next, order.total)
    ensures RowsFit(order.(status := next), after)
  {
    if rows != [] {
      assert rows[0].kind == OrderPayment;
    }
    if |rows| > 1 {
      assert Are(rows, [OrderPayment, OrderEarning]) ==> rows[1].kind == OrderEarning;
    }
  }

  lemma UpdateFits(s: State, provider: nat, o: nat, next: OrderStatus, hasReason: bool)
    requires Inv(s) && o < |s.orders| && OrderOk(s, o)
    ensures var r := UpdateOrderStatus(s, provider, o, next, hasReason);
            r.Ok? ==> o < |r.value.orders| && OrderOk(r.value, o)
  {
    hide UpdateOrderStatus, RowsOf, Inv, RowsFit, Gains, Allowed;
    var r := UpdateOrderStatus(s, provider, o, next, hasReason);
    UpdateMovesOrder(s, provider, o, next, hasReason);
    UpdateGains(s, provider, o, next, hasReason);
    if r.Ok? {
      NextFits(s.orders[o], next, RowsOf(s, o), RowsOf(r.value, o));
    }
  }

  lemma BackFits(order: Order, rows: seq<Entry>, mid: seq<Entry>, after: seq<Entry>, d: nat)
    requires Are(rows, [OrderPayment]) && d <= order.total && GivesBack(rows, mid, after, order.total - d, d)
    ensures RowsFit(order.(status := OrderStatus.Cancelled), after)
  {
  }

  lemma CancelFits(s: State, user: nat, o: nat, percent: Percent, drift: Drift)
    requires Inv(s) && o < |s.orders| && OrderOk(s, o) && CancelOrder(s, user, o, percent, drift).Ok?
    ensures var s' := CancelOrder(s, user, o, percent, drift).value; o < |s'.orders| && OrderOk(s', o)
  {
    var rows := RowsOf(s, o);
    CancelMovesOrder(s, user, o, percent, drift);
    assert Are(rows, [OrderPayment]) by { Cancellable(s, user, o, percent, drift); }
    hide CancelOrder, RowsOf, Inv, Deduction, RowsFit, GivesBack;
    RowOfParty(s, o, 0);
    assert rows[0].kind == OrderPayment;
    assert FindWallet(s.wallets, Customer(user)).Some? by {
      assert s.wallets[rows[0].wallet].owner == Customer(user);
    }
    var mid := CancelGains(s, user, o, percent, drift);
    BackFits(s.orders[o], rows, mid, RowsOf(CancelOrder(s, user, o, percent, drift).value, o),
             Deduction(s.orders[o].total, percent, drift));
  }

  lemma Cancellable(s: State, user: nat, o: nat, percent: Percent, drift: Drift)
    requires CancelOrder(s, user, o, percent, drift).Ok?
    ensures s.orders[o].status.Accepted? || s.orders[o].status.Processing?
  {
  }

  /** An action keeps an order's entries fitting its status; a confirmed card payment does exactly when the
      order is held. */
  lemma StepKeepsOrder(s: State, a: Action, o: nat)
    requires Inv(s) && o < |s.orders| && OrderOk(s, o)
    ensures var s' := Step(s, a);
            && o < |s'.orders|
            && (a != CardAcceptAction(o) || IsHeld(s, o) ==> OrderOk(s', o))
            && (a == CardAcceptAction(o) && !IsHeld(s, o) ==> !OrderOk(s', o))
  {
    StepMovesOrder(s, a, o);
    HeldIsPayment(s, o);
    if WorksOn(a, o) {
      if a.UpdateOrderStatusAction? {
        UpdateFits(s, a.provider, o, a.next, a.hasReason);
      } else if CancelOrder(s, a.user, o, a.percent, a.drift).Ok? {
        CancelFits(s, a.user, o, a.percent, a.drift);
      }
    } else {
      OtherRows(s, a, o);
      hide Step;
    }
    hide UpdateOrderStatus, CancelOrder, RowsOf, Inv, IsHeld;
  }

  // ----- runs

  /** Every confirmed card payment of the order, at its moment in the run, finds the order held. */
  ghost predicate CardSafe(s: State, actions: seq<Action>, o: nat)
    decreases |actions|
  {
    actions != [] ==>
      && (actions[0] == CardAcceptAction(o) && o < |s.orders| ==> IsHeld(s, o))
      && CardSafe(Step(s, actions[0]), actions[1..], o)
  }

  lemma {:induction false} NoCardSafe(s: State, actions: seq<Action>, o: nat)
    requires CardAcceptAction(o) !in actions
    ensures CardSafe(s, actions, o)
    decreases |actions|
  {
    hide Step;
    if actions != [] {
      NoCardSafe(Step(s, actions[0]), actions[1..], o);
    }
  }

  /** The order, once it exists, has the entries its status calls for. */
  ghost predicate OrderFits(s: State, o: nat) {
    && (o < |s.orders| ==> OrderOk(s, o))
    && (o >= |s.orders| ==> RowsOf(s, o) == [])
  }

  lemma StepKeepsFit(s: State, a: Action, o: nat)
    requires Inv(s) && OrderFits(s, o) && (a == CardAcceptAction(o) && o < |s.orders| ==> IsHeld(s, o))
    ensures OrderFits(Step(s, a), o)
  {
    if o < |s.orders| {
      StepKeepsOrder(s, a, o);
    } else {
      NoRowsAhead(s, a, o);
      if o < |Step(s, a).orders| {
        NewOrderPending(s, a, o);
      }
    }
    hide Step, RowsOf, IsHeld;
  }

  lemma NoRowsAhead(s: State, a: Action, o: nat)
    requires Inv(s) && o >= |s.orders|
    ensures RowsOf(Step(s, a), o) == []
  {
    forall e | e in s.ledger
      ensures Key(e, OrderBook) != Some(o)
    {
      assert InRange(s, e);
    }
    NoRows(s.ledger, OrderBook, o);
    if !WorksOn(a, o) {
      OtherRows(s, a, o);
    }
    hide Rows, Inv;
  }

  lemma NewOrderPending(s: State, a: Action, o: nat)
    requires o >= |s.orders| && o < |Step(s, a).orders|
    ensures Step(s, a).orders[o].status.Pending?
  {
    hide FindWallet, VoidEntries, HasRewardEntry, HasOrderEntry, Deduction;
    if a.UpdateOrderStatusAction? {
      UpdateMovesOrder(s, a.provider, a.order, a.next, a.hasReason);
    } else if a.CancelOrderAction? {
      CancelMovesOrder(s, a.user, a.order, a.percent, a.drift);
    }
    hide UpdateOrderStatus, CancelOrder;
  }

  /** In every run, an order that card payments only confirmed while it was held has exactly the entries its
      status calls for. */
  lemma {:induction false} RunKeepsOrder(s: State, actions: seq<Action>, o: nat)
    requires Inv(s) && OrderFits(s, o) && CardSafe(s, actions, o)
    ensures OrderFits(Run(s, actions), o)
    decreases |actions|
  {
    hide Inv, Attempt, OrderFits, IsHeld;
    if actions != [] {
      StepKeepsFit(s, actions[0], o);
      AttemptKeeps(s, actions[0]);
      RunKeepsOrder(Step(s, actions[0]), actions[1..], o);
    }
  }

  // ----- delivered orders

  predicate IsPayment(s: State, o: nat, e: Entry)
    requires o < |s.orders|
  {
    && e.orderId == Some(o) && e.kind.OrderPayment? && e.direction.Debit? && e.status.Success?
    && e.amount == s.orders[o].total
    && e.wallet < |s.wallets| && s.wallets[e.wallet].owner == Customer(s.orders[o].user)
  }

  predicate IsEarning(s: State, o: nat, e: Entry)
    requires o < |s.orders|
  {
    && e.orderId == Some(o) && e.kind.OrderEarning? && e.direction.Credit? && e.status.Success?
    && e.amount == s.orders[o].total
    && e.wallet < |s.wallets| && s.wallets[e.wallet].owner == Provider(s.orders[o].provider)
  }

  /** Exactly one payment by the customer and one earning by the provider, both of the total, and nothing else. */
  ghost predicate PaidAndEarned(s: State, o: nat)
    requires o < |s.orders|
  {
    && CountKind(s.ledger, o, OrderPayment) == 1
    && CountKind(s.ledger, o, OrderEarning) == 1
    && forall e :: e in s.ledger && e.orderId == Some(o) ==> IsPayment(s, o, e) || IsEarning(s, o, e)
  }

  lemma RowsPaidAndEarned(s: State, o: nat)
    requires Inv(s) && o < |s.orders| && Are(RowsOf(s, o), [OrderPayment, OrderEarning])
    ensures PaidAndEarned(s, o)
  {
    var rows := RowsOf(s, o);
    hide CountKind, RowsOf, Inv, HasKind;
    assert KindsDiffer(rows);
    assert rows[0].kind == OrderPayment && rows[1].kind == OrderEarning;
    HasKindInRows(s, o, OrderPayment);
    HasKindInRows(s, o, OrderEarning);
    CountOne(s, o, OrderPayment);
    CountOne(s, o, OrderEarning);
    forall e | e in s.ledger && e.orderId == Some(o)
      ensures IsPayment(s, o, e) || IsEarning(s, o, e)
    {
      RowIsEntry(s, o, e);
      var i :| 0 <= i < |rows| && rows[i] == e;
      RowOfParty(s, o, i);
    }
  }

  lemma RowIsEntry(s: State, o: nat, e: Entry)
    requires e in s.ledger && e.orderId == Some(o)
    ensures e in RowsOf(s, o)
  {
    RowsFrom(s.ledger, OrderBook, o, e);
  }

  /** In every run, an order that card payments only confirmed while it was held is delivered or completed
      only with exactly one payment and one earning, both of its total. */
  lemma DeliveredIsPaidAndEarned(actions: seq<Action>, o: nat)
    requires CardSafe(EMPTY, actions, o) && o < |Run(EMPTY, actions).orders|
    requires var status := Run(EMPTY, actions).orders[o].status; status.Delivered? || status.Completed?
    ensures PaidAndEarned(Run(EMPTY, actions), o)
  {
    EmptyOk();
    RunKeeps(EMPTY, actions);
    RunKeepsOrder(EMPTY, actions, o);
    RowsPaidAndEarned(Run(EMPTY, actions), o);
  }
}
