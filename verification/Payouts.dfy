/** Provider payouts under admin actions: what a release returns, and what bulk approval leaves. */
module Payouts {
  import opened Results
  import opened Money
  import opened Ledger
  import opened MoneyInvariant

  // ----- one payout

  predicate Open(status: PayoutStatus) {
    status.Pending? || status.OnHold?
  }

  /** A step changes a payout only while it is open, and never its wallet or amount. */
  lemma StepMovesPayout(s: State, a: Action, p: nat)
    requires p < |s.payouts|
    ensures var s' := Step(s, a);
            && p < |s'.payouts|
            && s'.payouts[p] == s.payouts[p].(status := s'.payouts[p].status)
            && (s'.payouts[p].status != s.payouts[p].status ==> Open(s.payouts[p].status))
  {
    hide UpdateOrderStatus, CancelOrder, FindWallet, VoidEntries, HasRewardEntry;
    if a.UpdateOrderStatusAction? {
      UpdateKeepsPayouts(s, a.provider, a.order, a.next, a.hasReason);
    } else if a.CancelOrderAction? {
      CancelKeepsPayouts(s, a.user, a.order, a.percent, a.drift);
    }
  }

  lemma UpdateKeepsPayouts(s: State, provider: nat, order: nat, next: OrderStatus, hasReason: bool)
    ensures var r := UpdateOrderStatus(s, provider, order, next, hasReason); r.Ok? ==> r.value.payouts == s.payouts
  {
  }

  lemma CancelKeepsPayouts(s: State, user: nat, order: nat, percent: Percent, drift: Drift)
    ensures var r := CancelOrder(s, user, order, percent, drift); r.Ok? ==> r.value.payouts == s.payouts
  {
  }

  lemma {:induction false} SettledStays(s: State, actions: seq<Action>, p: nat)
    requires p < |s.payouts| && !Open(s.payouts[p].status)
    ensures p < |Run(s, actions).payouts| && Run(s, actions).payouts[p] == s.payouts[p]
    decreases |actions|
  {
    hide Step;
    if actions != [] {
      StepMovesPayout(s, actions[0], p);
      SettledStays(Step(s, actions[0]), actions[1..], p);
    }
  }

  /** In every reachable state a payout has exactly one ledger entry, the debit of its amount, cancelled
      exactly when the payout was rejected by an admin or cancelled by the provider. */
  lemma RejectedMatchesCancelled(actions: seq<Action>, p: nat)
    requires p < |Run(EMPTY, actions).payouts|
    ensures var s := Run(EMPTY, actions);
            var payout := s.payouts[p];
            && PayoutEntry(payout, p) in s.ledger
            && (forall e :: e in s.ledger && e.withdrawalId == Some(p) ==> e == PayoutEntry(payout, p))
            && (PayoutEntry(payout, p).status.Cancelled? <==> payout.status.Rejected? || payout.status.Cancelled?)
  {
    EmptyOk();
    RunKeeps(EMPTY, actions);
    var s := Run(EMPTY, actions);
    PayoutRow(s, p);
  }

  lemma PayoutRow(s: State, p: nat)
    requires Inv(s) && p < |s.payouts|
    ensures PayoutEntry(s.payouts[p], p) in s.ledger
    ensures forall e :: e in s.ledger && e.withdrawalId == Some(p) ==> e == PayoutEntry(s.payouts[p], p)
  {
    assert PayoutOk(s, p);
    var x := PayoutEntry(s.payouts[p], p);
    RowsFrom(s.ledger, PayoutBook, p, x);
    forall e | e in s.ledger && e.withdrawalId == Some(p)
      ensures e == x
    {
      RowsFrom(s.ledger, PayoutBook, p, e);
    }
  }

  /** Once settled, neither the payout nor its ledger entry changes again. */
  lemma SettledEntryStays(actions: seq<Action>, more: seq<Action>, p: nat, e: Entry)
    requires p < |Run(EMPTY, actions).payouts| && !Open(Run(EMPTY, actions).payouts[p].status)
    requires e.withdrawalId == Some(p)
    ensures var s, s' := Run(EMPTY, actions), Run(Run(EMPTY, actions), more);
            && p < |s'.payouts| && s'.payouts[p] == s.payouts[p]
            && (e in s'.ledger <==> e in s.ledger)
  {
    var s := Run(EMPTY, actions);
    EmptyOk();
    RunKeeps(EMPTY, actions);
    RunKeeps(s, more);
    SettledStays(s, more, p);
    PayoutRow(s, p);
    PayoutRow(Run(s, more), p);
  }

  // ----- what admins return

  predicate IsAdmin(a: Action) {
    a.ApproveAction? || a.HoldAction? || a.RejectAction?
  }

  /** Money given back to a wallet by its returned payouts. */
  function ReturnedTo(payouts: seq<Payout>, w: nat): nat {
    if payouts == [] then 0
    else
      var last := payouts[|payouts| - 1];
      ReturnedTo(payouts[..|payouts| - 1], w) + if last.wallet == w && Returned(last.status) then last.amount else 0
  }

  lemma {:induction false} ReturnedToSet(payouts: seq<Payout>, p: nat, status: PayoutStatus, w: nat)
    requires p < |payouts| && !Returned(payouts[p].status)
    ensures ReturnedTo(payouts[p := payouts[p].(status := status)], w) ==
            ReturnedTo(payouts, w) + if payouts[p].wallet == w && Returned(status) then payouts[p].amount else 0
  {
    var n := |payouts| - 1;
    var changed := payouts[p := payouts[p].(status := status)];
    if p < n {
      assert changed[..n] == payouts[..n][p := payouts[p].(status := status)];
      ReturnedToSet(payouts[..n], p, status, w);
    } else {
      assert changed[..n] == payouts[..n];
    }
  }

  /** Nothing but balances, payouts and payout entries differs. */
  predicate SameButPayouts(s: State, s': State) {
    && s'.orders == s.orders && |s'.payouts| == |s.payouts| && |s'.wallets| == |s.wallets| && |s'.ledger| == |s.ledger|
    && (forall w :: 0 <= w < |s.wallets| ==> s'.wallets[w] == s.wallets[w].(balance := s'.wallets[w].balance))
  }

  lemma AdminStepReturns(s: State, a: Action, w: nat)
    requires IsAdmin(a) && w < |s.wallets|
    ensures var s' := Step(s, a);
            && SameButPayouts(s, s')
            && s'.wallets[w].balance - s.wallets[w].balance == ReturnedTo(s'.payouts, w) - ReturnedTo(s.payouts, w)
  {
    hide VoidEntries, ReturnedTo;
    var s' := Step(s, a);
    if s'.payouts != s.payouts {
      ReturnedToSet(s.payouts, a.payout, s'.payouts[a.payout].status, w);
    }
  }

  /** Every run of approvals, holds and rejections pays back to each wallet exactly the payouts the run
      left rejected, each once. */
  lemma {:induction false} AdminRunReturns(s: State, actions: seq<Action>, w: nat)
    requires (forall a :: a in actions ==> IsAdmin(a)) && w < |s.wallets|
    ensures var s' := Run(s, actions);
            && SameButPayouts(s, s')
            && s'.wallets[w].balance - s.wallets[w].balance == ReturnedTo(s'.payouts, w) - ReturnedTo(s.payouts, w)
    decreases |actions|
  {
    hide Step, ReturnedTo;
    if actions != [] {
      AdminStepReturns(s, actions[0], w);
      AdminRunReturns(Step(s, actions[0]), actions[1..], w);
    }
  }

  /** A step that returns a payout: it was not rejected or cancelled, and then it is. */
  predicate Releases(s: State, a: Action, p: nat) {
    && p < |s.payouts| && p < |Step(s, a).payouts|
    && !Returned(s.payouts[p].status) && Returned(Step(s, a).payouts[p].status)
  }

  /** Returning a payout pays exactly its amount to its wallet, and nothing to any other. */
  lemma ReleasePays(s: State, a: Action, p: nat)
    requires Releases(s, a, p)
    ensures s.payouts[p].wallet < |s.wallets|
    ensures Step(s, a).wallets == Adjust(s, s.payouts[p].wallet, s.payouts[p].amount, 0).wallets
  {
    hide UpdateOrderStatus, CancelOrder, FindWallet, VoidEntries, HasRewardEntry;
    if a.UpdateOrderStatusAction? {
      UpdateKeepsPayouts(s, a.provider, a.order, a.next, a.hasReason);
    } else if a.CancelOrderAction? {
      CancelKeepsPayouts(s, a.user, a.order, a.percent, a.drift);
    }
  }

  /** How many steps of a run return a payout. */
  function CountReleases(s: State, actions: seq<Action>, p: nat): nat
    decreases |actions|
  {
    if actions == [] then 0
    else CountReleases(Step(s, actions[0]), actions[1..], p) + if Releases(s, actions[0], p) then 1 else 0
  }

  /** In any run, whatever else is open, a payout is returned once if it ends rejected or cancelled and never
      otherwise; one returned before is not returned again. */
  lemma {:induction false} ReturnedOnceIffRejected(s: State, actions: seq<Action>, p: nat)
    requires p < |s.payouts|
    ensures var s' := Run(s, actions);
            && p < |s'.payouts|
            && CountReleases(s, actions, p) ==
               if Returned(s'.payouts[p].status) && !Returned(s.payouts[p].status) then 1 else 0
    decreases |actions|
  {
    hide Step;
    if actions != [] {
      var s1 := Step(s, actions[0]);
      StepMovesPayout(s, actions[0], p);
      ReturnedOnceIffRejected(s1, actions[1..], p);
      if Returned(s1.payouts[p].status) {
        SettledStays(s1, actions[1..], p);
      }
    }
  }

  /** Under admin actions alone, returned means rejected. */
  lemma AdminStepKeepsOwn(s: State, a: Action, p: nat)
    requires IsAdmin(a) && p < |s.payouts|
    ensures var s' := Step(s, a);
            && p < |s'.payouts| && s'.payouts[p] == s.payouts[p].(status := s'.payouts[p].status)
            && (s'.payouts[p].status.Cancelled? ==> s.payouts[p].status.Cancelled?)
  {
  }

  /** Admin runs never cancel a payout, nor move it to another wallet. */
  lemma {:induction false} AdminKeepsOwn(s: State, actions: seq<Action>, p: nat)
    requires (forall a :: a in actions ==> IsAdmin(a)) && p < |s.payouts|
    ensures var s' := Run(s, actions);
            && p < |s'.payouts| && s'.payouts[p] == s.payouts[p].(status := s'.payouts[p].status)
            && (s'.payouts[p].status.Cancelled? ==> s.payouts[p].status.Cancelled?)
    decreases |actions|
  {
    hide Step;
    if actions != [] {
      AdminStepKeepsOwn(s, actions[0], p);
      AdminKeepsOwn(Step(s, actions[0]), actions[1..], p);
    }
  }

  /** Rejecting a payout right after it was requested undoes the request: every wallet is as before, and
      the ledger only gains the cancelled debit. */
  lemma RejectUndoesRequest(s: State, provider: nat, amount: nat)
    requires Reachable(s) && RequestPayout(s, provider, amount).Ok?
    ensures var s1, p := Step(s, RequestPayoutAction(provider, amount)), |s.payouts|;
            var s2 := Step(s1, RejectAction(p));
            && p < |s2.payouts| && s2.payouts[..p] == s.payouts && s2.payouts[p].amount == amount
            && s2.wallets == s.wallets && s2.orders == s.orders
            && s2.ledger == s.ledger + [PayoutEntry(s2.payouts[p], p)]
            && PayoutEntry(s2.payouts[p], p).status.Cancelled?
            && s1.wallets != s.wallets
  {
    hide Reachable, VoidEntries, FindWallet, PayoutOk, WalletOk;
    ReachableOk(s);
    NothingToVoid(s);
    hide InvExcept;
    var w, p := FindWallet(s.wallets, Provider(provider)).value, |s.payouts|;
    VoidAppend(s.ledger, PayoutEntry(Payout(w, amount, PayoutStatus.Pending), p), p, EntryStatus.Cancelled);
    RequestIs(s, provider, amount, w);
  }

  lemma RequestIs(s: State, provider: nat, amount: nat, w: nat)
    requires RequestPayout(s, provider, amount).Ok? && FindWallet(s.wallets, Provider(provider)) == Some(w)
    ensures var s1, payout := Step(s, RequestPayoutAction(provider, amount)), Payout(w, amount, PayoutStatus.Pending);
            && s1.payouts == s.payouts + [payout] && s1.orders == s.orders
            && s1.ledger == s.ledger + [PayoutEntry(payout, |s.payouts|)]
            && w < |s.wallets| && amount > 0
            && s1.wallets == s.wallets[w := s.wallets[w].(balance := s.wallets[w].balance - amount)]
  {
  }

  /** A payout not yet requested has no entry. */
  lemma NothingToVoid(s: State)
    requires Inv(s)
    ensures VoidEntries(s.ledger, |s.payouts|, EntryStatus.Cancelled) == s.ledger
  {
    hide PayoutOk, WalletOk;
    forall x | x in s.ledger
      ensures x.withdrawalId != Some(|s.payouts|)
    {
      assert InRange(s, x);
    }
    VoidNothing(s.ledger, |s.payouts|, EntryStatus.Cancelled);
  }

  // ----- bulk approval

  datatype BulkResult =
    | Approved(payoutId: nat, status: PayoutStatus, idempotent: bool)
    | Refused(payoutId: nat, error: string)

  /** What approving one payout of a bulk reports. */
  function ApproveResult(s: State, payout: nat): BulkResult {
    match Approve(s, payout)
    case Ok(next) => Approved(payout, next.payouts[payout].status, !Open(s.payouts[payout].status))
    case Failed(message) => Refused(payout, message)
  }

  /** `bulkAction`: one approval after the other, collecting a result for each; a failure stops nothing. */
  function BulkApprove(s: State, ids: seq<nat>): (State, seq<BulkResult>)
    decreases |ids|
  {
    if ids == [] then (s, [])
    else
      var (s1, results) := BulkApprove(s, ids[..|ids| - 1]);
      var id := ids[|ids| - 1];
      (Step(s1, ApproveAction(id)), results + [ApproveResult(s1, id)])
  }

  /** A payout after a bulk, whatever else was in it. */
  function PayoutAfter(s: State, ids: seq<nat>, p: nat): Payout
    requires p < |s.payouts|
  {
    if p in ids && KnownPayout(s, p) && Open(s.payouts[p].status) then s.payouts[p].(status := PayoutStatus.Processing)
    else s.payouts[p]
  }

  /** The k-th result of a bulk: it depends on the state before and, for payouts the bulk itself approves,
      on whether the id came up before. */
  function ResultAt(s: State, ids: seq<nat>, k: nat): BulkResult
    requires k < |ids|
  {
    var id := ids[k];
    if !KnownPayout(s, id) then Refused(id, "Provider payout not found")
    else
      var status := s.payouts[id].status;
      if Open(status) then Approved(id, PayoutStatus.Processing, id in ids[..k])
      else if status.Processing? || status.Completed? then Approved(id, status, true)
      else Refused(id, "Only PENDING or ON_HOLD payout can be approved")
  }

  /** For any ids, repeated, unknown or in the wrong state: one result per id in order, the open payouts
      among them approved, and nothing else touched, wallets and ledger included. */
  lemma {:induction false} BulkOutcome(s: State, ids: seq<nat>)
    ensures var (s', results) := BulkApprove(s, ids);
            && |s'.payouts| == |s.payouts| && s' == s.(payouts := s'.payouts)
            && (forall p :: 0 <= p < |s.payouts| ==> s'.payouts[p] == PayoutAfter(s, ids, p))
            && |results| == |ids|
            && (forall k :: 0 <= k < |ids| ==> results[k] == ResultAt(s, ids, k))
    decreases |ids|
  {
    if ids != [] {
      hide PayoutAfter, ResultAt, Step, ApproveResult;
      var n := |ids| - 1;
      var (s1, results) := BulkApprove(s, ids[..n]);
      BulkOutcome(s, ids[..n]);
      BulkStep(s, s1, ids);
      forall k | 0 <= k < n
        ensures ResultAt(s, ids, k) == ResultAt(s, ids[..n], k)
      {
        EarlierResult(s, ids, n, k);
      }
    }
  }

  /** The last approval of a bulk, after the others. */
  lemma BulkStep(s: State, s1: State, ids: seq<nat>)
    requires ids != [] && |s1.payouts| == |s.payouts| && s1 == s.(payouts := s1.payouts)
    requires forall p :: 0 <= p < |s.payouts| ==> s1.payouts[p] == PayoutAfter(s, ids[..|ids| - 1], p)
    ensures var id := ids[|ids| - 1];
            var s' := Step(s1, ApproveAction(id));
            && |s'.payouts| == |s.payouts| && s' == s.(payouts := s'.payouts)
            && (forall p :: 0 <= p < |s.payouts| ==> s'.payouts[p] == PayoutAfter(s, ids, p))
            && ApproveResult(s1, id) == ResultAt(s, ids, |ids| - 1)
  {
    var n := |ids| - 1;
    assert ids == ids[..n] + [ids[n]];
  }

  lemma EarlierResult(s: State, ids: seq<nat>, n: nat, k: nat)
    requires k < n <= |ids|
    ensures ResultAt(s, ids, k) == ResultAt(s, ids[..n], k)
  {
    assert ids[..n][..k] == ids[..k];
  }

  /** The state after a bulk depends only on which ids it named. */
  lemma BulkOrderFree(s: State, ids: seq<nat>, others: seq<nat>)
    requires forall id :: id in ids <==> id in others
    ensures BulkApprove(s, ids).0 == BulkApprove(s, others).0
  {
    BulkOutcome(s, ids);
    BulkOutcome(s, others);
    assert BulkApprove(s, ids).0.payouts == BulkApprove(s, others).0.payouts;
  }

  /** Running a bulk again changes nothing, reports the same failures, and every success as idempotent. */
  lemma BulkTwice(s: State, ids: seq<nat>, k: nat)
    requires k < |ids|
    ensures var (s1, first) := BulkApprove(s, ids);
            var (s2, second) := BulkApprove(s1, ids);
            && s2 == s1 && |first| == |second| == |ids|
            && match first[k] {
                 case Approved(id, status, _) => second[k] == Approved(id, status, true)
                 case Refused(id, error) => second[k] == Refused(id, error)
               }
  {
    hide BulkApprove, KnownPayout;
    var s1 := BulkApprove(s, ids).0;
    BulkOutcome(s, ids);
    BulkOutcome(s1, ids);
    KnownAgain(s, s1, ids[k]);
    forall p | 0 <= p < |s.payouts|
      ensures PayoutAfter(s1, ids, p) == s1.payouts[p]
    {
      KnownAgain(s, s1, p);
    }
    assert BulkApprove(s1, ids).0.payouts == s1.payouts;
  }

  /** A bulk makes no payout known nor unknown. */
  lemma KnownAgain(s: State, s1: State, id: nat)
    requires |s1.payouts| == |s.payouts| && s1 == s.(payouts := s1.payouts)
    requires id < |s.payouts| ==> s1.payouts[id] == s.payouts[id].(status := s1.payouts[id].status)
    ensures KnownPayout(s1, id) <==> KnownPayout(s, id)
    ensures KnownPayout(s, id) ==> id < |s.payouts|
  {
  }

  // ----- giving back a failed payout

  /** The one entry of a payout is the debit it was opened with, whatever became of either. */
  ghost predicate OneDebit(s: State, p: nat, e: Entry)
    requires p < |s.payouts|
  {
    && Rows(s.ledger, PayoutBook, p) == [e]
    && e.wallet == s.payouts[p].wallet && e.kind.Withdrawal? && e.direction.Debit? && e.amount == s.payouts[p].amount
  }

  predicate Agrees(s: State, w: nat)
    requires w < |s.wallets|
  {
    s.wallets[w].balance + s.wallets[w].giftCredits == Net(s.ledger, WalletBook, w)
  }

  /** Giving back a payout, whatever its status, keeps its wallet in agreement with the ledger if and only if its
      debit is still pending: the code does not check, neither for a payout that was rejected nor for one given
      back before. */
  lemma FailedPayoutAgrees(s: State, provider: nat, p: nat, e: Entry)
    requires KnownPayout(s, p) && s.wallets[s.payouts[p].wallet].owner == Provider(provider)
    requires OneDebit(s, p, e) && Agrees(s, s.payouts[p].wallet)
    ensures var s' := ReturnFailedPayout(s, provider, p);
            && s.payouts[p].wallet < |s'.wallets| && p < |s'.payouts|
            && (Agrees(s', s.payouts[p].wallet) <==> e.status.Pending? || e.amount == 0)
            && OneDebit(s', p, if e.status.Pending? then e.(status := EntryStatus.Failed) else e)
  {
    hide Net, Rows, VoidEntries;
    VoidShare(s.ledger, p, EntryStatus.Failed, s.payouts[p].wallet, e);
    RowsVoid(s.ledger, p, EntryStatus.Failed, PayoutBook, p);
    OneVoided(e, p);
    RowOfPayout(s, p, e);
  }

  lemma OneVoided(e: Entry, p: nat)
    ensures VoidEntries([e], p, EntryStatus.Failed) == [Voided(e, p, EntryStatus.Failed)]
  {
    VoidAppend([], e, p, EntryStatus.Failed);
    assert [] + [e] == [e];
  }

  lemma RowOfPayout(s: State, p: nat, e: Entry)
    requires Rows(s.ledger, PayoutBook, p) == [e]
    ensures e.withdrawalId == Some(p)
  {
    RowsFrom(s.ledger, PayoutBook, p, e);
  }

  /** In a reachable state that is to say: if and only if the payout was not rejected or cancelled. */
  lemma FailedReachablePayout(s: State, provider: nat, p: nat)
    requires Reachable(s) && KnownPayout(s, p) && s.wallets[s.payouts[p].wallet].owner == Provider(provider)
    ensures var s' := ReturnFailedPayout(s, provider, p);
            && s.payouts[p].wallet < |s'.wallets|
            && (Agrees(s', s.payouts[p].wallet) <==> !Returned(s.payouts[p].status))
  {
    hide Reachable, Net, VoidEntries;
    ReachableOk(s);
    assert PayoutOk(s, p) && WalletOk(s, s.payouts[p].wallet);
    FailedPayoutAgrees(s, provider, p, PayoutEntry(s.payouts[p], p));
  }

  /** A provider's only 100 requested as a payout, rejected, then given back as failed: 200 in the wallet. */
  lemma PaidBackTwice(debit: Entry)
    requires debit == PayoutEntry(Payout(0, 100, PayoutStatus.Pending), 0)
    ensures var s := State([Wallet(Provider(3), 0, 0)], [debit], [], [Payout(0, 100, PayoutStatus.Pending)]);
            var s1 := Step(s, RejectAction(0));
            && s1.payouts == [Payout(0, 100, PayoutStatus.Rejected)]
            && s1.wallets == [Wallet(Provider(3), 100, 0)]
            && ReturnFailedPayout(s1, 3, 0).wallets == [Wallet(Provider(3), 200, 0)]
  {
  }

  /** The same failure reported twice pays back twice as well. */
  lemma FailedTwice(debit: Entry)
    requires debit == PayoutEntry(Payout(0, 100, PayoutStatus.Pending), 0)
    ensures var s := State([Wallet(Provider(3), 0, 0)], [debit], [], [Payout(0, 100, PayoutStatus.Pending)]);
            var s1 := ReturnFailedPayout(s, 3, 0);
            && s1.payouts == [Payout(0, 100, PayoutStatus.Failed)]
            && s1.wallets == [Wallet(Provider(3), 100, 0)]
            && ReturnFailedPayout(s1, 3, 0).wallets == [Wallet(Provider(3), 200, 0)]
  {
  }

  // ----- settling

  /** Settling a payout's debit changes no wallet and leaves each in agreement with the ledger as it was. */
  lemma SettlingAgrees(s: State, p: nat, status: PayoutStatus, w: nat)
    requires KnownPayout(s, p) && w < |s.wallets|
    requires forall e :: e in s.ledger && e.withdrawalId == Some(p) ==> e.direction.Debit?
    ensures var s' := TransitionPayout(s, p, status, false, true);
            && s'.wallets == s.wallets && (Agrees(s', w) <==> Agrees(s, w))
            && forall e :: e in s'.ledger && e.withdrawalId == Some(p) ==> !e.status.Pending?
  {
    hide Rows, Total;
    var s' := TransitionPayout(s, p, status, false, true);
    RowsVoid(s.ledger, p, Success, WalletBook, w);
    forall e | e in Rows(s.ledger, WalletBook, w)
      ensures e in s.ledger
    {
      RowsFrom(s.ledger, WalletBook, w, e);
    }
    SettledTotal(Rows(s.ledger, WalletBook, w), p);
    forall e | e in s'.ledger && e.withdrawalId == Some(p)
      ensures !e.status.Pending?
    {
      var i :| 0 <= i < |s'.ledger| && s'.ledger[i] == e;
      VoidAt(s.ledger, p, Success, i);
    }
  }

  lemma {:induction false} SettledTotal(rows: seq<Entry>, p: nat)
    requires forall e :: e in rows && e.withdrawalId == Some(p) ==> e.direction.Debit?
    ensures Total(VoidEntries(rows, p, Success), WalletBook) == Total(rows, WalletBook)
  {
    if rows != [] {
      var init, last := rows[..|rows| - 1], rows[|rows| - 1];
      assert rows == init + [last];
      SettledTotal(init, p);
      VoidAppend(init, last, p, Success);
    }
  }
}
