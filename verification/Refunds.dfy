/** Refund requests, settled from two sides that share the same rows: admins refund a payment, providers
    approve a customer's request on an order. Amounts are cents. */
module Refunds {
  import opened Results

  datatype RefundStatus = Requested | Approved | Rejected | RefundProcessing | Refunded | Failed

  /** `code` is what the request's id contributes to a transaction id, its last eight characters; a
      transaction id is unique among the requests. */
  datatype Request = Request(order: nat, provider: nat, payment: Option<nat>, requested: nat, approved: Option<nat>,
                             status: RefundStatus, code: nat, transaction: Option<nat>)

  datatype PaymentStatus = Pending | Processing | Succeeded | Failed | Cancelled | Refunded

  /** `partly` is the note left in the payment's metadata by an admin refund that was not full. */
  datatype Payment = Payment(order: Option<nat>, amount: nat, status: PaymentStatus, partly: bool, code: nat)

  datatype Order = Order(provider: nat, total: nat, cancelled: bool)

  datatype State = State(orders: seq<Order>, payments: seq<Payment>, requests: seq<Request>)

  // ----- sums over requests

  predicate Processed(status: RefundStatus) {
    status.Approved? || status.RefundProcessing? || status.Refunded?
  }

  /** `approvedAmount ?? requestedAmount`. */
  function AmountOf(r: Request): nat {
    if r.approved.Some? then r.approved.value else r.requested
  }

  /** Which requests a sum runs over. */
  datatype Choice =
    | OnPayment(payment: nat)
    | AnyOnPayment(payment: nat)
    | OnOrder(order: nat)
    | OutsidePayment(order: nat, payment: nat)
    | UnsettledOnPayment(payment: nat)
    | RejectedOnPayment(payment: nat)

  predicate Chosen(r: Request, c: Choice) {
    match c
    case OnPayment(p) => r.payment == Some(p) && Processed(r.status)
    case AnyOnPayment(p) => r.payment == Some(p)
    case OnOrder(o) => r.order == o && Processed(r.status)
    case OutsidePayment(o, p) => r.order == o && r.payment != Some(p) && Processed(r.status)
    case UnsettledOnPayment(p) => r.payment == Some(p) && !Processed(r.status)
    case RejectedOnPayment(p) => r.payment == Some(p) && r.status.Rejected?
  }

  function Value(r: Request, c: Choice): nat {
    if Chosen(r, c) then AmountOf(r) else 0
  }

  function Sum(requests: seq<Request>, c: Choice): nat {
    if requests == [] then 0 else Sum(requests[..|requests| - 1], c) + Value(requests[|requests| - 1], c)
  }

  lemma SumAppend(requests: seq<Request>, r: Request, c: Choice)
    ensures Sum(requests + [r], c) == Sum(requests, c) + Value(r, c)
  {
  }

  lemma SumOne(r: Request, c: Choice)
    ensures Sum([r], c) == Value(r, c)
  {
    SumAppend([], r, c);
    assert [] + [r] == [r];
  }

  lemma {:induction false} SumSet(requests: seq<Request>, i: nat, r: Request, c: Choice)
    requires i < |requests|
    ensures Sum(requests[i := r], c) == Sum(requests, c) - Value(requests[i], c) + Value(r, c)
  {
    var n := |requests| - 1;
    if i < n {
      assert requests[i := r][..n] == requests[..n][i := r];
      SumSet(requests[..n], i, r, c);
    } else {
      assert requests[i := r][..n] == requests[..n];
    }
  }

  predicate CodeTaken(requests: seq<Request>, code: nat) {
    exists i :: 0 <= i < |requests| && requests[i].transaction == Some(code)
  }

  // ----- the two sides

  /** The status an admin sees is REFUNDED: all the payment's requests count here, even those not yet
      decided, unless an earlier partial refund is noted. */
  predicate SeenRefunded(s: State, p: nat)
    requires p < |s.payments|
  {
    var payment := s.payments[p];
    !payment.partly && (payment.status.Refunded? || Sum(s.requests, AnyOnPayment(p)) >= payment.amount)
  }

  function Remaining(s: State, p: nat): nat
    requires p < |s.payments|
  {
    var left := s.payments[p].amount - Sum(s.requests, OnPayment(p));
    if left > 0 then left else 0
  }

  /** The settled request an admin refund leaves. */
  function AdminRow(order: nat, provider: nat, payment: nat, refund: nat, newCode: nat, code: nat): Request {
    Request(order, provider, Some(payment), refund, Some(refund), RefundStatus.Refunded, newCode, Some(code))
  }

  /** A request its provider approved. */
  function Granted(row: Request, amount: nat): Request {
    row.(status := RefundStatus.Refunded, approved := Some(amount), transaction := Some(row.code))
  }

  function AdminRefund(s: State, p: nat, full: bool, amount: int, allowed: bool, newCode: nat): Result<State> {
    if p >= |s.payments| then Result.Failed("Transaction not found")
    else
      var payment := s.payments[p];
      if !payment.status.Succeeded? || SeenRefunded(s, p) then
        Result.Failed("Transaction is not settled and cannot be refunded")
      else
        var remaining := Remaining(s, p);
        var refund := if full then remaining else amount;
        if refund <= 0 then Result.Failed("Refund amount must be greater than 0")
        else if refund > remaining then Result.Failed("Refund amount cannot exceed remaining refundable amount")
        else if payment.order.None? || payment.order.value >= |s.orders| then
          Result.Failed("Order/provider order is required to refund this transaction")
        else if !allowed then Result.Failed("Cancellation/refund is currently disabled")
        else if CodeTaken(s.requests, payment.code) then Result.Failed("Unique constraint failed on transaction_id")
        else
          var o := payment.order.value;
          var whole := refund >= remaining;
          var row := AdminRow(o, s.orders[o].provider, p, refund, newCode, payment.code);
          var settled := payment.(status := if whole then PaymentStatus.Refunded else payment.status, partly := !whole);
          Ok(State(if whole then s.orders[o := s.orders[o].(cancelled := true)] else s.orders,
                   s.payments[p := settled], s.requests + [row]))
  }

  predicate Owned(s: State, provider: nat, r: nat) {
    r < |s.requests| && s.requests[r].provider == provider && s.requests[r].order < |s.orders|
  }

  /** What an order's total leaves after its other processed requests. */
  function Refundable(s: State, r: nat): int
    requires r < |s.requests| && s.requests[r].order < |s.orders|
  {
    var row := s.requests[r];
    s.orders[row.order].total - (Sum(s.requests, OnOrder(row.order)) - Value(row, OnOrder(row.order)))
  }

  function ProviderApprove(s: State, provider: nat, r: nat, amount: nat): Result<State> {
    if !Owned(s, provider, r) then Result.Failed("Refund request not found")
    else
      var row := s.requests[r];
      if !row.status.Requested? then Result.Failed("Only requested refund requests can be actioned")
      else if amount > row.requested then Result.Failed("Refund amount cannot exceed requested amount")
      else if amount > Refundable(s, r) then Result.Failed("Refund amount cannot exceed refundable amount")
      else if CodeTaken(s.requests, row.code) then Result.Failed("Unique constraint failed on transaction_id")
      else
        Ok(s.(requests := s.requests[r := Granted(row, amount)],
              orders := s.orders[row.order := s.orders[row.order].(cancelled := true)]))
  }

  function ProviderReject(s: State, provider: nat, r: nat, hasReason: bool): Result<State> {
    if !Owned(s, provider, r) then Result.Failed("Refund request not found")
    else if !s.requests[r].status.Requested? then Result.Failed("Only requested refund requests can be actioned")
    else if !hasReason then Result.Failed("Reason is required when rejecting a refund request")
    else Ok(s.(requests := s.requests[r := s.requests[r].(status := RefundStatus.Rejected)]))
  }

  /** What a request adds to the refunds of a payment or an order: what was approved, or else what was requested,
      once it is approved, being processed or refunded. */
  lemma Counted(r: Request, p: nat, o: nat)
    ensures var amount := match r.approved { case Some(granted) => granted case None => r.requested };
            var counts := r.status in {Approved, RefundProcessing, RefundStatus.Refunded};
            && Sum([r], OnPayment(p)) == (if r.payment == Some(p) && counts then amount else 0)
            && Sum([r], OnOrder(o)) == (if r.order == o && counts then amount else 0)
            && Sum([r], AnyOnPayment(p)) == (if r.payment == Some(p) then amount else 0)
  {
    SumOne(r, OnPayment(p));
    SumOne(r, OnOrder(o));
    SumOne(r, AnyOnPayment(p));
  }

  /** An admin refund is accepted exactly for a settled payment not refunded, with a known order, while the policy
      allows it and the transaction id is free, of a positive amount within what the payment leaves. It is written
      as a settled request; when nothing is left the payment becomes REFUNDED and its order cancelled, otherwise
      the refund is noted as partial. */
  lemma AdminRefunds(s: State, p: nat, full: bool, amount: int, allowed: bool, newCode: nat)
    ensures var r := AdminRefund(s, p, full, amount, allowed, newCode);
            var left := if p < |s.payments| then s.payments[p].amount - Sum(s.requests, OnPayment(p)) else 0;
            var refund := if full then left else amount;
            && (r.Ok? <==>
                  && p < |s.payments| && s.payments[p].status == Succeeded
                  && (s.payments[p].partly || Sum(s.requests, AnyOnPayment(p)) < s.payments[p].amount)
                  && s.payments[p].order.Some? && s.payments[p].order.value < |s.orders|
                  && allowed && 0 < refund <= left
                  && forall i :: 0 <= i < |s.requests| ==> s.requests[i].transaction != Some(s.payments[p].code))
            && (r.Ok? ==>
                  var payment, o := s.payments[p], s.payments[p].order.value;
                  && r.value.requests == s.requests + [Request(o, s.orders[o].provider, Some(p), refund, Some(refund),
                                                               RefundStatus.Refunded, newCode, Some(payment.code))]
                  && (if refund == left then
                        && r.value.payments == s.payments[p := payment.(status := PaymentStatus.Refunded,
                                                                        partly := false)]
                        && r.value.orders == s.orders[o := s.orders[o].(cancelled := true)]
                      else
                        && r.value.payments == s.payments[p := payment.(partly := true)]
                        && r.value.orders == s.orders))
  {
    hide Sum;
  }

  /** A provider approves exactly a pending request of its own, up to what was requested and to what the order's
      other refunds leave of its total, with a free transaction id; the order is then cancelled. */
  lemma Approves(s: State, provider: nat, r: nat, amount: nat)
    ensures var result := ProviderApprove(s, provider, r, amount);
            && (result.Ok? <==>
                  && r < |s.requests| && s.requests[r].provider == provider && s.requests[r].order < |s.orders|
                  && s.requests[r].status == Requested && amount <= s.requests[r].requested
                  && Sum(s.requests, OnOrder(s.requests[r].order)) + amount <= s.orders[s.requests[r].order].total
                  && forall i :: 0 <= i < |s.requests| ==> s.requests[i].transaction != Some(s.requests[r].code))
            && (result.Ok? ==>
                  var row := s.requests[r];
                  result.value ==
                  State(s.orders[row.order := s.orders[row.order].(cancelled := true)],
                        s.payments,
                        s.requests[r := row.(status := RefundStatus.Refunded, approved := Some(amount),
                                             transaction := Some(row.code))]))
  {
    hide Sum;
  }

  /** A provider rejects exactly a pending request of its own, with a reason; only the request's status changes. */
  lemma Rejects(s: State, provider: nat, r: nat, hasReason: bool)
    ensures var result := ProviderReject(s, provider, r, hasReason);
            && (result.Ok? <==>
                  && r < |s.requests| && s.requests[r].provider == provider && s.requests[r].order < |s.orders|
                  && s.requests[r].status == Requested && hasReason)
            && (result.Ok? ==>
                  result.value ==
                  s.(requests := s.requests[r := s.requests[r].(status := RefundStatus.Rejected)]))
  {
  }

  /** The sides' actions, customers filing requests, and payments moving on their own. */
  datatype Action =
    | AdminRefundAction(payment: nat, full: bool, amount: int, allowed: bool, newCode: nat)
    | ApproveAction(provider: nat, request: nat, refund: nat)
    | RejectAction(provider: nat, request: nat, hasReason: bool)
    | FileAction(order: nat, provider: nat, carries: Option<nat>, requested: nat, code: nat)
    | PaymentAction(payment: nat, status: PaymentStatus)

  function Attempt(s: State, a: Action): Result<State> {
    match a
    case AdminRefundAction(p, full, amount, allowed, newCode) => AdminRefund(s, p, full, amount, allowed, newCode)
    case ApproveAction(provider, r, amount) => ProviderApprove(s, provider, r, amount)
    case RejectAction(provider, r, hasReason) => ProviderReject(s, provider, r, hasReason)
    case FileAction(o, provider, payment, requested, code) =>
      Ok(s.(requests := s.requests + [Request(o, provider, payment, requested, None, Requested, code, None)]))
    case PaymentAction(p, status) =>
      if p < |s.payments| then Ok(s.(payments := s.payments[p := s.payments[p].(status := status)]))
      else Result.Failed("Payment not found")
  }

  function Step(s: State, a: Action): State {
    match Attempt(s, a)
    case Ok(next) => next
    case Failed(_) => s
  }

  function Run(s: State, actions: seq<Action>): State
    decreases |actions|
  {
    if actions == [] then s else Run(Step(s, actions[0]), actions[1..])
  }

  // ----- the shared bound

  /** The order's one payment, of the order's total. */
  predicate PaysFor(s: State, o: nat, p: nat) {
    && o < |s.orders| && p < |s.payments|
    && s.payments[p].order == Some(o) && s.payments[p].amount == s.orders[o].total
  }

  /** An action that files no request for the order without the payment, nor the other way round, and
      refunds no other payment of the order. */
  predicate Coherent(s: State, a: Action, o: nat, p: nat) {
    && (a.FileAction? ==> (a.order == o <==> a.carries == Some(p)))
    && (a.AdminRefundAction? && a.payment != p && a.payment < |s.payments| ==> s.payments[a.payment].order != Some(o))
  }

  ghost predicate AllCarry(s: State, o: nat, p: nat) {
    forall r :: 0 <= r < |s.requests| ==> (s.requests[r].order == o <==> s.requests[r].payment == Some(p))
  }

  ghost predicate Bounded(s: State, o: nat, p: nat) {
    && PaysFor(s, o, p) && AllCarry(s, o, p)
    && Sum(s.requests, OnPayment(p)) <= s.payments[p].amount
  }

  lemma {:induction false} SumsAgree(requests: seq<Request>, o: nat, p: nat)
    requires forall r :: 0 <= r < |requests| ==> (requests[r].order == o <==> requests[r].payment == Some(p))
    ensures Sum(requests, OnOrder(o)) == Sum(requests, OnPayment(p))
  {
    if requests != [] {
      SumsAgree(requests[..|requests| - 1], o, p);
    }
  }

  lemma StepBounded(s: State, a: Action, o: nat, p: nat)
    requires Bounded(s, o, p) && Coherent(s, a, o, p)
    ensures Bounded(Step(s, a), o, p)
  {
    hide AdminRefund, ProviderApprove, Bounded, Sum;
    if Attempt(s, a).Ok? {
      if a.AdminRefundAction? {
        AdminBounded(s, a, o, p);
      } else if a.ApproveAction? {
        ApprovalBounded(s, a, o, p);
      } else {
        OtherBounded(s, a, o, p);
      }
    }
  }

  lemma AdminBounded(s: State, a: Action, o: nat, p: nat)
    requires Bounded(s, o, p) && Coherent(s, a, o, p) && a.AdminRefundAction? && Attempt(s, a).Ok?
    ensures Bounded(Attempt(s, a).value, o, p)
  {
    hide Sum, SeenRefunded, CodeTaken;
    var s' := Attempt(s, a).value;
    SumAppend(s.requests, s'.requests[|s.requests|], OnPayment(p));
  }

  lemma ApprovalBounded(s: State, a: Action, o: nat, p: nat)
    requires Bounded(s, o, p) && a.ApproveAction? && Attempt(s, a).Ok?
    ensures Bounded(Attempt(s, a).value, o, p)
  {
    hide Sum, CodeTaken;
    SumsAgree(s.requests, o, p);
    SumSet(s.requests, a.request, Attempt(s, a).value.requests[a.request], OnPayment(p));
  }

  lemma OtherBounded(s: State, a: Action, o: nat, p: nat)
    requires Bounded(s, o, p) && Coherent(s, a, o, p) && !a.AdminRefundAction? && !a.ApproveAction? && Attempt(s, a).Ok?
    ensures Bounded(Attempt(s, a).value, o, p)
  {
    hide Sum;
    var s' := Attempt(s, a).value;
    if a.FileAction? {
      SumAppend(s.requests, s'.requests[|s.requests|], OnPayment(p));
    } else if a.RejectAction? {
      SumSet(s.requests, a.request, s'.requests[a.request], OnPayment(p));
    }
  }

  /** Whether every action of a run is coherent when it happens. */
  ghost predicate RunCoherent(s: State, actions: seq<Action>, o: nat, p: nat)
    decreases |actions|
  {
    actions != [] ==> Coherent(s, actions[0], o, p) && RunCoherent(Step(s, actions[0]), actions[1..], o, p)
  }

  /** When an order's requests all carry one payment of the order's total, no interleaving of admin refunds
      and provider approvals refunds more than that. */
  lemma {:induction false} SharedBound(s: State, actions: seq<Action>, o: nat, p: nat)
    requires Bounded(s, o, p) && RunCoherent(s, actions, o, p)
    ensures var s' := Run(s, actions);
            && Bounded(s', o, p)
            && Sum(s'.requests, OnOrder(o)) == Sum(s'.requests, OnPayment(p)) <= s'.orders[o].total
    decreases |actions|
  {
    hide Sum, Step;
    if actions == [] {
      SumsAgree(s.requests, o, p);
    } else {
      StepBounded(s, actions[0], o, p);
      SharedBound(Step(s, actions[0]), actions[1..], o, p);
    }
  }

  /** An accepted admin refund marks its payment REFUNDED, and cancels the order, exactly when the processed
      refunds then reach the whole amount; it never takes them past it. */
  lemma RefundedMeansWhole(s: State, p: nat, full: bool, amount: int, allowed: bool, newCode: nat)
    requires AdminRefund(s, p, full, amount, allowed, newCode).Ok?
    ensures var s' := AdminRefund(s, p, full, amount, allowed, newCode).value;
            var sum := Sum(s'.requests, OnPayment(p));
            && p < |s'.payments| && sum <= s'.payments[p].amount == s.payments[p].amount
            && sum > Sum(s.requests, OnPayment(p))
            && (s'.payments[p].status.Refunded? <==> sum == s'.payments[p].amount)
            && (sum < s'.payments[p].amount ==> s'.orders == s.orders)
  {
  }

  /** A provider's approval settles its own request only, and leaves the order's processed refunds within
      the order's total whatever requests carry. */
  lemma ApprovalWithinTotal(s: State, provider: nat, r: nat, amount: nat)
    requires ProviderApprove(s, provider, r, amount).Ok?
    ensures var s' := ProviderApprove(s, provider, r, amount).value;
            var o := s.requests[r].order;
            && o < |s'.orders| && |s'.requests| == |s.requests| && s'.payments == s.payments
            && Sum(s'.requests, OnOrder(o)) == Sum(s.requests, OnOrder(o)) + amount <= s'.orders[o].total
            && (forall i :: 0 <= i < |s.requests| && i != r ==> s'.requests[i] == s.requests[i])
  {
    hide Sum, CodeTaken;
    var s' := ProviderApprove(s, provider, r, amount).value;
    SumSet(s.requests, r, s'.requests[r], OnOrder(s.requests[r].order));
  }

  lemma {:induction false} SumSplit(requests: seq<Request>, o: nat, p: nat)
    requires forall r :: 0 <= r < |requests| && requests[r].payment == Some(p) ==> requests[r].order == o
    ensures Sum(requests, OnOrder(o)) == Sum(requests, OnPayment(p)) + Sum(requests, OutsidePayment(o, p))
  {
    if requests != [] {
      SumSplit(requests[..|requests| - 1], o, p);
    }
  }

  /** What an accepted admin refund gives back. */
  function RefundOf(s: State, p: nat, full: bool, amount: int): int
    requires p < |s.payments|
  {
    if full then Remaining(s, p) else amount
  }

  /** Without that premise the bound can break. An accepted admin refund, full or partial, keeps the order's
      refunds within its total if and only if it fits into what the order's processed refunds leave: the check
      the code makes for the payment instead. */
  lemma AdminRefundWithinTotal(s: State, p: nat, full: bool, amount: int, allowed: bool, newCode: nat)
    requires AdminRefund(s, p, full, amount, allowed, newCode).Ok?
    ensures p < |s.payments| && s.payments[p].order.Some? && s.payments[p].order.value < |s.orders|
    ensures var o, refund := s.payments[p].order.value, RefundOf(s, p, full, amount);
            var s' := AdminRefund(s, p, full, amount, allowed, newCode).value;
            && Sum(s'.requests, OnOrder(o)) == Sum(s.requests, OnOrder(o)) + refund
            && (Sum(s'.requests, OnOrder(o)) <= s.orders[o].total
                <==> refund <= s.orders[o].total - Sum(s.requests, OnOrder(o)))
  {
    hide Sum, Remaining, SeenRefunded, CodeTaken;
    var s' := AdminRefund(s, p, full, amount, allowed, newCode).value;
    SumAppend(s.requests, s'.requests[|s.requests|], OnOrder(s.payments[p].order.value));
  }

  /** So no amount an admin may still enter breaks the bound if and only if the payment leaves no more to
      refund than its order does. */
  lemma AdminAlwaysWithinTotal(s: State, p: nat, allowed: bool, newCode: nat)
    requires AdminRefund(s, p, true, 0, allowed, newCode).Ok?
    ensures p < |s.payments| && s.payments[p].order.Some? && s.payments[p].order.value < |s.orders|
    ensures var o := s.payments[p].order.value;
            (forall amount :: AdminRefund(s, p, false, amount, allowed, newCode).Ok? ==>
               Sum(AdminRefund(s, p, false, amount, allowed, newCode).value.requests, OnOrder(o)) <= s.orders[o].total)
            <==> Remaining(s, p) <= s.orders[o].total - Sum(s.requests, OnOrder(o))
  {
    forall amount | AdminRefund(s, p, false, amount, allowed, newCode).Ok?
      ensures var o := s.payments[p].order.value;
              Sum(AdminRefund(s, p, false, amount, allowed, newCode).value.requests, OnOrder(o)) <= s.orders[o].total
              <==> amount <= s.orders[o].total - Sum(s.requests, OnOrder(o))
      ensures amount <= Remaining(s, p)
    {
      AdminRefundWithinTotal(s, p, false, amount, allowed, newCode);
    }
    hide Sum, Remaining, SeenRefunded, CodeTaken;
    assert AdminRefund(s, p, false, Remaining(s, p), allowed, newCode).Ok?;
  }

  /** After a full admin refund of an order's payment the order's refunds stay within its total exactly when
      nothing had been refunded on the order outside the payment. */
  lemma FullRefundWithinTotal(s: State, o: nat, p: nat, allowed: bool, newCode: nat)
    requires PaysFor(s, o, p) && AdminRefund(s, p, true, 0, allowed, newCode).Ok?
    requires forall r :: 0 <= r < |s.requests| && s.requests[r].payment == Some(p) ==> s.requests[r].order == o
    ensures var s' := AdminRefund(s, p, true, 0, allowed, newCode).value;
            && Sum(s'.requests, OnOrder(o)) == s.orders[o].total + Sum(s.requests, OutsidePayment(o, p))
            && (Sum(s'.requests, OnOrder(o)) <= s.orders[o].total <==> Sum(s.requests, OutsidePayment(o, p)) == 0)
  {
    hide Sum;
    AdminRefundWithinTotal(s, p, true, 0, allowed, newCode);
    SumSplit(s.requests, o, p);
  }

  /** A request of 60 without its payment approved by the provider, then a full admin refund of the payment:
      160 refunded on an order of 100. The table allows such a request, its payment being optional; no code in
      the repository files requests at all. */
  lemma RefundedTwiceOver(bare: Request)
    requires bare == Request(0, 3, None, 60, None, Requested, 11, None)
    ensures var s := State([Order(3, 100, false)], [Payment(Some(0), 100, Succeeded, false, 22)], [bare]);
            var s' := Run(s, [ApproveAction(3, 0, 60), AdminRefundAction(0, true, 0, true, 33)]);
            && s'.orders[0].total == 100
            && Sum(s'.requests, OnOrder(0)) == 160
  {
    var s := State([Order(3, 100, false)], [Payment(Some(0), 100, Succeeded, false, 22)], [bare]);
    var approved := bare.(status := RefundStatus.Refunded, approved := Some(60), transaction := Some(11));
    SumOne(bare, OnOrder(0));
    SumOne(approved, OnPayment(0));
    SumOne(approved, AnyOnPayment(0));
    var s1 := Step(s, ApproveAction(3, 0, 60));
    assert s1.requests == [approved];
    var row := Request(0, 3, Some(0), 100, Some(100), RefundStatus.Refunded, 33, Some(22));
    assert Step(s1, AdminRefundAction(0, true, 0, true, 33)).requests == [approved] + [row];
    SumOne(approved, OnOrder(0));
    SumAppend([approved], row, OnOrder(0));
  }

  /** A partial refund does it as well: after the 60, another 50 of the payment make 110. */
  lemma PartlyTwiceOver(bare: Request)
    requires bare == Request(0, 3, None, 60, Some(60), RefundStatus.Refunded, 11, Some(11))
    ensures var s := State([Order(3, 100, true)], [Payment(Some(0), 100, Succeeded, false, 22)], [bare]);
            var r := AdminRefund(s, 0, false, 50, true, 33);
            r.Ok? && Sum(r.value.requests, OnOrder(0)) == 110
  {
    var s := State([Order(3, 100, true)], [Payment(Some(0), 100, Succeeded, false, 22)], [bare]);
    SumOne(bare, OnOrder(0));
    SumOne(bare, OnPayment(0));
    SumOne(bare, AnyOnPayment(0));
    hide Sum;
    AdminRefundWithinTotal(s, 0, false, 50, true, 33);
  }

  // ----- refunds that requests stand in the way of

  lemma {:induction false} SumUnsettled(requests: seq<Request>, p: nat)
    ensures Sum(requests, AnyOnPayment(p)) == Sum(requests, OnPayment(p)) + Sum(requests, UnsettledOnPayment(p))
    ensures Sum(requests, RejectedOnPayment(p)) <= Sum(requests, UnsettledOnPayment(p))
  {
    if requests != [] {
      SumUnsettled(requests[..|requests| - 1], p);
    }
  }

  /** While the policy allows refunds, a payment with something left can be refunded by an admin at all if and
      only if it is settled, its order and its transaction id allow it, and either an earlier refund was partial
      or the requests not granted, undecided, rejected and failed ones alike, stay below what is left. */
  lemma CanBeRefunded(s: State, p: nat)
    requires p < |s.payments| && Remaining(s, p) > 0
    ensures (exists full, amount, newCode :: AdminRefund(s, p, full, amount, true, newCode).Ok?) <==>
            var payment := s.payments[p];
            && payment.status.Succeeded?
            && payment.order.Some? && payment.order.value < |s.orders|
            && !CodeTaken(s.requests, payment.code)
            && (payment.partly || Sum(s.requests, UnsettledOnPayment(p)) < Remaining(s, p))
  {
    SumUnsettled(s.requests, p);
    hide Sum, CodeTaken;
    if AdminRefund(s, p, true, 0, true, 0).Failed? {
      forall full, amount, newCode
        ensures AdminRefund(s, p, full, amount, true, newCode).Failed?
      {
      }
    }
  }

  /** One rejected request of the whole amount: all of it is left, and no admin refund is accepted. */
  lemma RejectedBlocks(rejected: Request)
    requires rejected == Request(0, 3, Some(0), 100, None, RefundStatus.Rejected, 11, None)
    ensures var s := State([Order(3, 100, false)], [Payment(Some(0), 100, Succeeded, false, 22)], [rejected]);
            && Remaining(s, 0) == 100
            && forall full, amount, allowed, newCode :: AdminRefund(s, 0, full, amount, allowed, newCode).Failed?
  {
    SumOne(rejected, OnPayment(0));
    SumOne(rejected, AnyOnPayment(0));
    hide Sum;
  }

  /** Rejected requests reach the amount of a payment not yet refunded in part. */
  ghost predicate Blocked(s: State, p: nat) {
    p < |s.payments| && !s.payments[p].partly && Sum(s.requests, RejectedOnPayment(p)) >= s.payments[p].amount
  }

  lemma StepKeepsBlocked(s: State, a: Action, p: nat)
    requires Blocked(s, p)
    ensures Blocked(Step(s, a), p)
    ensures a.AdminRefundAction? && a.payment == p ==> Attempt(s, a).Failed?
  {
    hide Sum, CodeTaken;
    SumUnsettled(s.requests, p);
    if Attempt(s, a).Ok? {
      var after := Attempt(s, a).value.requests;
      if a.AdminRefundAction? || a.FileAction? {
        SumAppend(s.requests, after[|s.requests|], RejectedOnPayment(p));
      } else if a.ApproveAction? || a.RejectAction? {
        SumSet(s.requests, a.request, after[a.request], RejectedOnPayment(p));
      }
    }
  }

  /** Rejections are final, so no later run refunds such a payment through an admin. */
  lemma {:induction false} BlockedForever(s: State, actions: seq<Action>, p: nat)
    requires Blocked(s, p)
    ensures CountAdminRefunds(s, actions, p) == 0 && Blocked(Run(s, actions), p)
    decreases |actions|
  {
    hide Step, Attempt, Blocked;
    if actions != [] {
      StepKeepsBlocked(s, actions[0], p);
      BlockedForever(Step(s, actions[0]), actions[1..], p);
    }
  }

  // ----- once per payment

  ghost predicate OpenUncoded(s: State) {
    forall r :: 0 <= r < |s.requests| && s.requests[r].status.Requested? ==> s.requests[r].transaction.None?
  }

  /** Accepted admin refunds of a payment in a run. */
  function CountAdminRefunds(s: State, actions: seq<Action>, p: nat): nat
    decreases |actions|
  {
    if actions == [] then 0
    else
      var a := actions[0];
      CountAdminRefunds(Step(s, a), actions[1..], p)
      + if a.AdminRefundAction? && a.payment == p && Attempt(s, a).Ok? then 1 else 0
  }

  lemma StepKeepsCodes(s: State, a: Action, p: nat)
    requires OpenUncoded(s) && p < |s.payments|
    ensures var s' := Step(s, a);
            && OpenUncoded(s') && p < |s'.payments| && s'.payments[p].code == s.payments[p].code
            && (CodeTaken(s.requests, s.payments[p].code) ==> CodeTaken(s'.requests, s.payments[p].code))
            && (a.AdminRefundAction? && a.payment == p && Attempt(s, a).Ok? ==>
                  !CodeTaken(s.requests, s.payments[p].code) && CodeTaken(s'.requests, s.payments[p].code))
  {
    hide Sum, SeenRefunded, Remaining, Refundable;
    var s', code := Step(s, a), s.payments[p].code;
    if CodeTaken(s.requests, code) {
      var i :| 0 <= i < |s.requests| && s.requests[i].transaction == Some(code);
      assert s'.requests[i].transaction == Some(code);
    }
    if a.AdminRefundAction? && a.payment == p && Attempt(s, a).Ok? {
      assert s'.requests[|s.requests|].transaction == Some(code);
    }
  }

  /** The unique transaction id, made from the payment's id, lets at most one admin refund of a payment
      through, partial or full. */
  lemma {:induction false} OneAdminRefund(s: State, actions: seq<Action>, p: nat)
    requires OpenUncoded(s) && p < |s.payments|
    ensures CountAdminRefunds(s, actions, p) <= if CodeTaken(s.requests, s.payments[p].code) then 0 else 1
    decreases |actions|
  {
    hide Step, Attempt, CodeTaken, OpenUncoded;
    if actions != [] {
      StepKeepsCodes(s, actions[0], p);
      OneAdminRefund(Step(s, actions[0]), actions[1..], p);
    }
  }
}
