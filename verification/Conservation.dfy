/** Money is neither created nor lost: in every reachable state the wallets, the money held for paid
    orders and the money under way to providers add up to what came in from outside. */
module Conservation {
  import opened Results
  import opened Money
  import opened Ledger
  import opened MoneyInvariant
  import opened OrderEntries

  function SumWallets(wallets: seq<Wallet>): int {
    if wallets == [] then 0
    else
      var last := wallets[|wallets| - 1];
      SumWallets(wallets[..|wallets| - 1]) + last.balance + last.giftCredits
  }

  function SumHeld(s: State, n: nat): int
    requires n <= |s.orders|
  {
    if n == 0 then 0 else SumHeld(s, n - 1) + if IsHeld(s, n - 1) then s.orders[n - 1].total else 0
  }

  /** Payouts whose money has left the wallet for good, or may still do so. */
  function SumOutstanding(payouts: seq<Payout>): int {
    if payouts == [] then 0
    else
      var last := payouts[|payouts| - 1];
      SumOutstanding(payouts[..|payouts| - 1]) + if Returned(last.status) then 0 else last.amount
  }

  // ----- each book against its table

  lemma {:induction false} WalletsAddUp(s: State, n: nat)
    requires Inv(s) && n <= |s.wallets|
    ensures SumWallets(s.wallets[..n]) == SumNets(s.ledger, WalletBook, n)
  {
    if n == 0 {
      SumNetsEmpty(WalletBook, 0);
    } else {
      hide Net;
      assert s.wallets[..n][..n - 1] == s.wallets[..n - 1];
      WalletsAddUp(s, n - 1);
      assert WalletOk(s, n - 1);
    }
  }

  /** The money booked on an order is its total while it is held, and nothing otherwise. */
  ghost predicate HeldForm(s: State, o: nat)
    requires o < |s.orders|
  {
    Net(s.ledger, OrderBook, o) == if IsHeld(s, o) then s.orders[o].total else 0
  }

  lemma TotalOf(rows: seq<Entry>)
    ensures |rows| == 1 ==> Total(rows, OrderBook) == Amount(rows[0], OrderBook)
    ensures |rows| == 2 ==> Total(rows, OrderBook) == Amount(rows[0], OrderBook) + Amount(rows[1], OrderBook)
    ensures |rows| == 3 ==> Total(rows, OrderBook) ==
                            Amount(rows[0], OrderBook) + Amount(rows[1], OrderBook) + Amount(rows[2], OrderBook)
  {
    if |rows| == 3 {
      assert rows[..2][..1] == rows[..1];
    }
  }

  lemma HeldIsBooked(s: State, o: nat)
    requires Inv(s) && o < |s.orders| && OrderOk(s, o)
    ensures HeldForm(s, o)
  {
    var rows := RowsOf(s, o);
    HeldIsPayment(s, o);
    TotalOf(rows);
    forall i | 0 <= i < |rows|
      ensures Shaped(rows[i]) && OfParty(s, rows[i], o)
    {
      RowOfParty(s, o, i);
    }
    assert Net(s.ledger, OrderBook, o) == Total(rows, OrderBook);
    hide Net, RowsOf, Total, IsHeld, Inv;
  }

  lemma {:induction false} OrdersAddUp(s: State, n: nat)
    requires n <= |s.orders| && forall o :: 0 <= o < n ==> HeldForm(s, o)
    ensures SumHeld(s, n) == SumNets(s.ledger, OrderBook, n)
  {
    hide IsHeld, Net;
    if n > 0 {
      OrdersAddUp(s, n - 1);
      assert HeldForm(s, n - 1);
    }
  }

  lemma {:induction false} PayoutsAddUp(s: State, n: nat)
    requires Inv(s) && n <= |s.payouts|
    ensures SumOutstanding(s.payouts[..n]) == SumNets(s.ledger, PayoutBook, n)
  {
    if n > 0 {
      assert s.payouts[..n][..n - 1] == s.payouts[..n - 1];
      PayoutsAddUp(s, n - 1);
      assert PayoutOk(s, n - 1);
      var e := PayoutEntry(s.payouts[n - 1], n - 1);
      assert Total([e], PayoutBook) == Amount(e, PayoutBook);
    }
  }

  lemma EntryBalances(s: State, e: Entry)
    requires Shaped(e) && InRange(s, e)
    ensures Balanced(e) && Booked(e, WalletBook, |s.wallets|) && Booked(e, OrderBook, |s.orders|)
            && Booked(e, PayoutBook, |s.payouts|)
  {
  }

  lemma Conserved(s: State)
    requires Inv(s)
    ensures SumWallets(s.wallets) + SumNets(s.ledger, OrderBook, |s.orders|) + SumOutstanding(s.payouts)
            == TotalIncome(s.ledger)
  {
    assert s.wallets[..|s.wallets|] == s.wallets && s.payouts[..|s.payouts|] == s.payouts;
    WalletsAddUp(s, |s.wallets|);
    PayoutsAddUp(s, |s.payouts|);
    hide Total, SumNets, SumWallets, SumOutstanding, Balanced, Booked, Shaped;
    forall e | e in s.ledger
      ensures Balanced(e) && Booked(e, WalletBook, |s.wallets|) && Booked(e, OrderBook, |s.orders|)
              && Booked(e, PayoutBook, |s.payouts|)
    {
      EntryBalances(s, e);
    }
    BookAddsUp(s.ledger, WalletBook, |s.wallets|);
    BookAddsUp(s.ledger, OrderBook, |s.orders|);
    BookAddsUp(s.ledger, PayoutBook, |s.payouts|);
    BooksBalance(s.ledger);
  }

  /** After any run from empty tables: wallets + what is booked on orders + outstanding payouts = money that
      came in. An order that a card paid has nothing booked on it but what is given out. */
  lemma GlobalConservation(actions: seq<Action>)
    ensures var s := Run(EMPTY, actions);
            SumWallets(s.wallets) + SumNets(s.ledger, OrderBook, |s.orders|) + SumOutstanding(s.payouts)
              == TotalIncome(s.ledger)
  {
    EmptyOk();
    RunKeeps(EMPTY, actions);
    Conserved(Run(EMPTY, actions));
  }

  /** After any run in which card payments only ever confirmed held orders: wallets + totals of held orders +
      outstanding payouts = money that came in. */
  lemma HeldConservation(actions: seq<Action>)
    requires forall o :: CardSafe(EMPTY, actions, o)
    ensures var s := Run(EMPTY, actions);
            SumWallets(s.wallets) + SumHeld(s, |s.orders|) + SumOutstanding(s.payouts) == TotalIncome(s.ledger)
  {
    GlobalConservation(actions);
    EmptyOk();
    RunKeeps(EMPTY, actions);
    var s := Run(EMPTY, actions);
    forall o | 0 <= o < |s.orders|
      ensures HeldForm(s, o)
    {
      RunKeepsOrder(EMPTY, actions, o);
      HeldIsBooked(s, o);
    }
    OrdersAddUp(s, |s.orders|);
  }

  // ----- each wallet against its entries

  /** Amounts booked on a wallet in one direction with one status. */
  function BookedOn(ledger: seq<Entry>, w: nat, direction: Direction, status: EntryStatus): int {
    if ledger == [] then 0
    else
      var e := ledger[|ledger| - 1];
      BookedOn(ledger[..|ledger| - 1], w, direction, status)
      + if e.wallet == w && e.direction == direction && e.status == status then e.amount else 0
  }

  lemma {:induction false} NetByDirection(ledger: seq<Entry>, w: nat)
    ensures Net(ledger, WalletBook, w) ==
            BookedOn(ledger, w, Credit, Success) - BookedOn(ledger, w, Debit, Success)
            - BookedOn(ledger, w, Debit, EntryStatus.Pending)
  {
    if ledger != [] {
      var init, last := ledger[..|ledger| - 1], ledger[|ledger| - 1];
      assert ledger == init + [last];
      NetByDirection(init, w);
      RowsAppend(init, last, WalletBook, w);
    }
  }

  lemma {:induction false} NoneBookedOn(ledger: seq<Entry>, w: nat, direction: Direction, status: EntryStatus)
    requires forall e :: e in ledger ==> !(e.wallet == w && e.direction == direction && e.status == status)
    ensures BookedOn(ledger, w, direction, status) == 0
  {
    if ledger != [] {
      NoneBookedOn(ledger[..|ledger| - 1], w, direction, status);
      assert ledger[|ledger| - 1] in ledger;
    }
  }

  /** Pending debits are payouts, and payouts leave provider wallets only. */
  lemma PendingDebitsAreProviders(s: State, e: Entry)
    requires Inv(s) && e in s.ledger && e.direction.Debit? && e.status.Pending?
    ensures e.wallet < |s.wallets| && s.wallets[e.wallet].owner.Provider?
  {
    assert Shaped(e) && InRange(s, e);
    var p := e.withdrawalId.value;
    assert PayoutOk(s, p);
    RowsFrom(s.ledger, PayoutBook, p, e);
    assert e == PayoutEntry(s.payouts[p], p);
  }

  /** After any run: a customer's cash and credits are settled credits less settled debits, and a
      provider's balance is settled credits less pending and settled debits. */
  lemma LedgerAgreement(actions: seq<Action>, w: nat)
    requires w < |Run(EMPTY, actions).wallets|
    ensures var s := Run(EMPTY, actions);
            var wallet, ledger := s.wallets[w], s.ledger;
            && wallet.balance >= 0 && wallet.giftCredits >= 0
            && (wallet.owner.Customer? ==>
                  wallet.balance + wallet.giftCredits ==
                  BookedOn(ledger, w, Credit, Success) - BookedOn(ledger, w, Debit, Success))
            && (wallet.owner.Provider? ==>
                  wallet.balance ==
                  BookedOn(ledger, w, Credit, Success)
                  - (BookedOn(ledger, w, Debit, EntryStatus.Pending) + BookedOn(ledger, w, Debit, Success)))
  {
    EmptyOk();
    RunKeeps(EMPTY, actions);
    var s := Run(EMPTY, actions);
    assert WalletOk(s, w);
    NetByDirection(s.ledger, w);
    if s.wallets[w].owner.Customer? {
      forall e | e in s.ledger
        ensures !(e.wallet == w && e.direction.Debit? && e.status.Pending?)
      {
        if e.direction.Debit? && e.status.Pending? {
          PendingDebitsAreProviders(s, e);
        }
      }
      NoneBookedOn(s.ledger, w, Debit, EntryStatus.Pending);
    }
  }
}
