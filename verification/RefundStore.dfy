/** The refund tables, updated in place by the admin and the provider service. */
module RefundStore {
  import opened Results
  import opened Refunds

  class Store {
    var orders: seq<Order>
    var payments: seq<Payment>
    var requests: seq<Request>

    ghost function View(): State
      reads this
    {
      State(orders, payments, requests)
    }

    constructor (s: State)
      ensures View() == s
    {
      orders, payments, requests := s.orders, s.payments, s.requests;
    }

    method CancelOrder(order: nat)
      requires order < |orders|
      modifies this`orders
      ensures orders == old(orders)[order := old(orders)[order].(cancelled := true)]
    {
      orders := orders[order := orders[order].(cancelled := true)];
    }

    /** Writes the refund as a settled request, then the payment, then the order when nothing is left. */
    method ProcessRefund(p: nat, row: Request, status: PaymentStatus, partly: bool, updateOrderAsRefunded: bool)
      requires p < |payments| && row.order < |orders|
      modifies this
      ensures requests == old(requests) + [row]
      ensures payments == old(payments)[p := old(payments)[p].(status := status, partly := partly)]
      ensures orders ==
              if updateOrderAsRefunded then old(orders)[row.order := old(orders)[row.order].(cancelled := true)]
              else old(orders)
    {
      requests := requests + [row];
      payments := payments[p := payments[p].(status := status, partly := partly)];
      if updateOrderAsRefunded {
        CancelOrder(row.order);
      }
    }

    method IsPaymentRefundable(p: nat) returns (refundable: bool)
      requires p < |payments|
      ensures refundable <==> payments[p].status.Succeeded? && !SeenRefunded(View(), p)
    {
      var payment := payments[p];
      var refundedAmount := Sum(requests, AnyOnPayment(p));
      var seenRefunded := !payment.partly && (payment.status.Refunded? || refundedAmount >= payment.amount);
      return payment.status.Succeeded? && !seenRefunded;
    }

    method RemainingRefundableAmount(p: nat) returns (remaining: nat)
      requires p < |payments|
      ensures remaining == Remaining(View(), p)
    {
      var refundedAmount := Sum(requests, OnPayment(p));
      return if payments[p].amount > refundedAmount then payments[p].amount - refundedAmount else 0;
    }

    method Refund(p: nat, full: bool, amount: int, allowed: bool, newCode: nat) returns (r: Result<int>)
      modifies this
      ensures match AdminRefund(old(View()), p, full, amount, allowed, newCode)
              case Ok(next) => View() == next && r == Ok(if full then Remaining(old(View()), p) else amount)
              case Failed(message) => View() == old(View()) && r == Result.Failed(message)
    {
      hide Sum, CodeTaken, SeenRefunded, Remaining;
      if p >= |payments| {
        return Result.Failed("Transaction not found");
      }
      var payment := payments[p];
      var refundable := IsPaymentRefundable(p);
      if !refundable {
        return Result.Failed("Transaction is not settled and cannot be refunded");
      }
      var remaining := RemainingRefundableAmount(p);
      var refund := if full then remaining else amount;
      if refund <= 0 {
        return Result.Failed("Refund amount must be greater than 0");
      }
      if refund > remaining {
        return Result.Failed("Refund amount cannot exceed remaining refundable amount");
      }
      if payment.order.None? || payment.order.value >= |orders| {
        return Result.Failed("Order/provider order is required to refund this transaction");
      }
      if !allowed {
        return Result.Failed("Cancellation/refund is currently disabled");
      }
      if CodeTaken(requests, payment.code) {
        return Result.Failed("Unique constraint failed on transaction_id");
      }
      var order := payment.order.value;
      var whole := refund >= remaining;
      var row := AdminRow(order, orders[order].provider, p, refund, newCode, payment.code);
      ProcessRefund(p, row, if whole then PaymentStatus.Refunded else payment.status, !whole, whole);
      return Ok(refund);
    }

    method ApproveWithSideEffects(i: nat, amount: nat)
      requires i < |requests| && requests[i].order < |orders|
      modifies this
      ensures var row := old(requests)[i];
              && requests == old(requests)[i := Granted(row, amount)]
              && orders == old(orders)[row.order := old(orders)[row.order].(cancelled := true)]
              && payments == old(payments)
    {
      var row := requests[i];
      requests := requests[i := Granted(row, amount)];
      CancelOrder(row.order);
    }

    method Approve(provider: nat, i: nat, amount: nat) returns (r: Result<()>)
      modifies this
      ensures View() == Step(old(View()), ApproveAction(provider, i, amount))
      ensures r.Ok? <==> ProviderApprove(old(View()), provider, i, amount).Ok?
    {
      if i >= |requests| || requests[i].provider != provider || requests[i].order >= |orders| {
        return Result.Failed("Refund request not found");
      }
      var row := requests[i];
      if !row.status.Requested? {
        return Result.Failed("Only requested refund requests can be actioned");
      }
      var processed := Sum(requests, OnOrder(row.order));
      var refundableAmount := orders[row.order].total - processed;
      if amount > row.requested {
        return Result.Failed("Refund amount cannot exceed requested amount");
      }
      if amount > refundableAmount {
        return Result.Failed("Refund amount cannot exceed refundable amount");
      }
      if CodeTaken(requests, row.code) {
        return Result.Failed("Unique constraint failed on transaction_id");
      }
      ApproveWithSideEffects(i, amount);
      return Ok(());
    }

    method Reject(provider: nat, i: nat, hasReason: bool) returns (r: Result<()>)
      modifies this
      ensures View() == Step(old(View()), RejectAction(provider, i, hasReason))
      ensures r.Ok? <==> ProviderReject(old(View()), provider, i, hasReason).Ok?
    {
      if i >= |requests| || requests[i].provider != provider || requests[i].order >= |orders| {
        return Result.Failed("Refund request not found");
      }
      if !requests[i].status.Requested? {
        return Result.Failed("Only requested refund requests can be actioned");
      }
      if !hasReason {
        return Result.Failed("Reason is required when rejecting a refund request");
      }
      requests := requests[i := requests[i].(status := RefundStatus.Rejected)];
      return Ok(());
    }
  }
}
