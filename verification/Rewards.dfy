/** Reward credits: each reward reaches a wallet once, as gift credits. */
module Rewards {
  import opened Results
  import opened Money
  import opened Ledger
  import opened MoneyInvariant

  ghost predicate RewardsDistinct(ledger: seq<Entry>) {
    forall i, j :: 0 <= i < j < |ledger| && ledger[i].rewardId.Some? && ledger[i].wallet == ledger[j].wallet ==>
      ledger[i].rewardId != ledger[j].rewardId
  }

  /** Entries already there keep their wallet and reward; new ones carry no reward. */
  ghost predicate SameRewards(ledger: seq<Entry>, after: seq<Entry>) {
    && |ledger| <= |after|
    && (forall i :: 0 <= i < |ledger| ==>
          after[i].wallet == ledger[i].wallet && after[i].rewardId == ledger[i].rewardId)
    && (forall i :: |ledger| <= i < |after| ==> after[i].rewardId.None?)
  }

  lemma StepSameRewards(s: State, a: Action)
    requires !a.RedeemRewardAction?
    ensures SameRewards(s.ledger, Step(s, a).ledger)
  {
    hide UpdateOrderStatus, CancelOrder, FindWallet, VoidEntries;
    if a.UpdateOrderStatusAction? {
      UpdateSameRewards(s, a.provider, a.order, a.next, a.hasReason);
    } else if a.CancelOrderAction? {
      CancelSameRewards(s, a.user, a.order, a.percent, a.drift);
    } else if a.RejectAction? || a.CancelPayoutAction? {
      forall i | 0 <= i < |s.ledger|
        ensures VoidEntries(s.ledger, a.payout, EntryStatus.Cancelled)[i]
                == Voided(s.ledger[i], a.payout, EntryStatus.Cancelled)
      {
        VoidAt(s.ledger, a.payout, EntryStatus.Cancelled, i);
      }
    }
  }

  lemma UpdateSameRewards(s: State, provider: nat, order: nat, next: OrderStatus, hasReason: bool)
    ensures var r := UpdateOrderStatus(s, provider, order, next, hasReason);
            r.Ok? ==> SameRewards(s.ledger, r.value.ledger)
  {
  }

  lemma CancelSameRewards(s: State, user: nat, order: nat, percent: Percent, drift: Drift)
    ensures var r := CancelOrder(s, user, order, percent, drift); r.Ok? ==> SameRewards(s.ledger, r.value.ledger)
  {
  }

  lemma StepKeepsRewards(s: State, a: Action)
    requires RewardsDistinct(s.ledger)
    ensures RewardsDistinct(Step(s, a).ledger)
  {
    if a.RedeemRewardAction? {
      hide FindWallet;
    } else {
      StepSameRewards(s, a);
      hide Step;
    }
  }

  /** In every reachable state no wallet has been credited the same reward twice. */
  lemma {:induction false} RewardPaidOnce(s: State, actions: seq<Action>)
    requires RewardsDistinct(s.ledger)
    ensures RewardsDistinct(Run(s, actions).ledger)
    decreases |actions|
  {
    hide Step, RewardsDistinct;
    if actions != [] {
      StepKeepsRewards(s, actions[0]);
      RewardPaidOnce(Step(s, actions[0]), actions[1..]);
    }
  }

  /** Redeeming adds the amount to the customer's gift credits and nothing to the cash, the first time;
      redeeming the same reward again changes nothing. */
  lemma RedeemIsCredits(s: State, user: nat, reward: nat, amount: nat, again: nat)
    requires OwnersDistinct(s.wallets)
    ensures var before, s1 := EnsureWallet(s, Customer(user)).0, Step(s, RedeemRewardAction(user, reward, amount));
            var w := EnsureWallet(s, Customer(user)).1;
            && w < |s1.wallets| && s1.wallets == before.wallets[w := s1.wallets[w]]
            && (if HasRewardEntry(s.ledger, w, reward) then s1 == before
                else s1.wallets[w] == before.wallets[w].(giftCredits := before.wallets[w].giftCredits + amount))
            && Step(s1, RedeemRewardAction(user, reward, again)) == s1
  {
    var (before, w) := EnsureWallet(s, Customer(user));
    var s1 := Step(s, RedeemRewardAction(user, reward, amount));
    FindsAgain(s, user, s1.wallets[w]);
    if !HasRewardEntry(s.ledger, w, reward) {
      assert s1.ledger[|s.ledger|].rewardId == Some(reward);
    }
    hide FindWallet;
  }

  lemma FindsAgain(s: State, user: nat, changed: Wallet)
    requires OwnersDistinct(s.wallets) && changed.owner == Customer(user)
    ensures var (before, w) :=
            EnsureWallet(s, Customer(user)); FindWallet(before.wallets[w := changed], Customer(user)) == Some(w)
  {
    var (before, w) := EnsureWallet(s, Customer(user));
    var wallets := before.wallets[w := changed];
    var found := FindWallet(wallets, Customer(user));
    assert wallets[w].owner == Customer(user);
    if found.Some? && found.value != w {
      assert before.wallets[found.value].owner == Customer(user);
    }
  }
}
