/** Sums over ledger entries: per wallet, per order and per payout, and how they add up. */
module Ledger {
  import opened Results
  import opened Money

  /** What an entry is booked under. */
  datatype Book = WalletBook | OrderBook | PayoutBook

  function Key(e: Entry, book: Book): Option<nat> {
    match book
    case WalletBook => Some(e.wallet)
    case OrderBook => e.orderId
    case PayoutBook => e.withdrawalId
  }

  /** What an entry puts into the money booked there. A debit that is still pending has already left
      the wallet. */
  function Amount(e: Entry, book: Book): int {
    match book
    case WalletBook =>
      if e.direction.Credit? then (if e.status.Success? then e.amount else 0)
      else if e.status.Success? || e.status.Pending? then -e.amount
      else 0
    case OrderBook =>
      if e.kind.OrderPayment? then e.amount
      else if e.kind.OrderEarning? || e.kind.Refund? || e.kind.PlatformFee? then -e.amount
      else 0
    case PayoutBook =>
      if e.kind.Withdrawal? && (e.status.Success? || e.status.Pending?) then e.amount else 0
  }

  /** Money that came in from outside: settled top-ups and reward credits. */
  function Income(e: Entry): int {
    if (e.kind.TopUp? || e.kind.RewardCredit?) && e.status.Success? then e.amount else 0
  }

  function Rows(ledger: seq<Entry>, book: Book, key: nat): seq<Entry> {
    if ledger == [] then []
    else
      var last := ledger[|ledger| - 1];
      Rows(ledger[..|ledger| - 1], book, key) + if Key(last, book) == Some(key) then [last] else []
  }

  function Total(rows: seq<Entry>, book: Book): int {
    if rows == [] then 0 else Total(rows[..|rows| - 1], book) + Amount(rows[|rows| - 1], book)
  }

  function Net(ledger: seq<Entry>, book: Book, key: nat): int {
    Total(Rows(ledger, book, key), book)
  }

  function TotalIncome(ledger: seq<Entry>): int {
    if ledger == [] then 0 else TotalIncome(ledger[..|ledger| - 1]) + Income(ledger[|ledger| - 1])
  }

  // ----- appending an entry

  lemma RowsAppend(ledger: seq<Entry>, e: Entry, book: Book, key: nat)
    ensures Rows(ledger + [e], book, key) == Rows(ledger, book, key) + if Key(e, book) == Some(key) then [e] else []
    ensures Net(ledger + [e], book, key) ==
            Net(ledger, book, key) + if Key(e, book) == Some(key) then Amount(e, book) else 0
  {
    assert (ledger + [e])[..|ledger|] == ledger;
    var rows := Rows(ledger, book, key);
    if Key(e, book) == Some(key) {
      assert (rows + [e])[..|rows|] == rows;
    } else {
      assert rows + [] == rows;
    }
  }

  /** Every row comes from the ledger and carries the key asked for. */
  lemma {:induction false} RowsFrom(ledger: seq<Entry>, book: Book, key: nat, e: Entry)
    ensures e in Rows(ledger, book, key) <==> e in ledger && Key(e, book) == Some(key)
  {
    if ledger != [] {
      var init, last := ledger[..|ledger| - 1], ledger[|ledger| - 1];
      RowsFrom(init, book, key, e);
      assert ledger == init + [last];
    }
  }

  lemma {:induction false} NoRows(ledger: seq<Entry>, book: Book, key: nat)
    requires forall e :: e in ledger ==> Key(e, book) != Some(key)
    ensures Rows(ledger, book, key) == []
  {
    if ledger != [] {
      NoRows(ledger[..|ledger| - 1], book, key);
    }
  }

  // ----- changing an entry's status

  lemma {:induction false} NetSet(ledger: seq<Entry>, i: nat, e: Entry, book: Book, key: nat)
    requires i < |ledger| && Key(e, book) == Key(ledger[i], book)
    ensures Net(ledger[i := e], book, key) == Net(ledger, book, key)
            + if Key(e, book) == Some(key) then Amount(e, book) - Amount(ledger[i], book) else 0
  {
    var n := |ledger| - 1;
    var init, last := ledger[..n], ledger[n];
    assert ledger == init + [last];
    RowsAppend(init, last, book, key);
    if i == n {
      assert ledger[i := e] == init + [e];
      RowsAppend(init, e, book, key);
    } else {
      assert ledger[i := e] == init[i := e] + [last];
      RowsAppend(init[i := e], last, book, key);
      NetSet(init, i, e, book, key);
    }
  }

  lemma {:induction false} RowsSetElsewhere(ledger: seq<Entry>, i: nat, e: Entry, book: Book, key: nat)
    requires i < |ledger| && Key(e, book) != Some(key) && Key(ledger[i], book) != Some(key)
    ensures Rows(ledger[i := e], book, key) == Rows(ledger, book, key)
  {
    var n := |ledger| - 1;
    var init, last := ledger[..n], ledger[n];
    assert ledger == init + [last];
    RowsAppend(init, last, book, key);
    if i == n {
      assert ledger[i := e] == init + [e];
      RowsAppend(init, e, book, key);
    } else {
      assert ledger[i := e] == init[i := e] + [last];
      RowsAppend(init[i := e], last, book, key);
      RowsSetElsewhere(init, i, e, book, key);
    }
  }

  // ----- voiding a payout's entries

  function Voided(e: Entry, payout: nat, to: EntryStatus): Entry {
    if e.withdrawalId == Some(payout) && e.status == EntryStatus.Pending then e.(status := to) else e
  }

  lemma VoidAppend(ledger: seq<Entry>, e: Entry, payout: nat, to: EntryStatus)
    ensures VoidEntries(ledger + [e], payout, to) == VoidEntries(ledger, payout, to) + [Voided(e, payout, to)]
  {
  }

  lemma {:induction false} VoidAt(ledger: seq<Entry>, payout: nat, to: EntryStatus, i: nat)
    requires i < |ledger|
    ensures VoidEntries(ledger, payout, to)[i] == Voided(ledger[i], payout, to)
  {
    var n := |ledger| - 1;
    assert ledger == ledger[..n] + [ledger[n]];
    VoidAppend(ledger[..n], ledger[n], payout, to);
    if i < n {
      VoidAt(ledger[..n], payout, to, i);
    }
  }

  lemma {:induction false} RowsVoid(ledger: seq<Entry>, payout: nat, to: EntryStatus, book: Book, key: nat)
    ensures Rows(VoidEntries(ledger, payout, to), book, key) == VoidEntries(Rows(ledger, book, key), payout, to)
  {
    if ledger != [] {
      var init, last := ledger[..|ledger| - 1], ledger[|ledger| - 1];
      assert ledger == init + [last];
      VoidAppend(init, last, payout, to);
      RowsAppend(init, last, book, key);
      RowsAppend(VoidEntries(init, payout, to), Voided(last, payout, to), book, key);
      RowsVoid(init, payout, to, book, key);
      if Key(last, book) == Some(key) {
        VoidAppend(Rows(init, book, key), last, payout, to);
      } else {
        assert Rows(init, book, key) + [] == Rows(init, book, key);
      }
    }
  }

  lemma {:induction false} VoidNothing(rows: seq<Entry>, payout: nat, to: EntryStatus)
    requires forall e :: e in rows ==> e.withdrawalId != Some(payout)
    ensures VoidEntries(rows, payout, to) == rows
  {
    if rows != [] {
      VoidNothing(rows[..|rows| - 1], payout, to);
      assert rows == rows[..|rows| - 1] + [rows[|rows| - 1]];
    }
  }

  /** Picking a payout's rows and a wallet's rows commute. */
  lemma {:induction false} RowsCommute(ledger: seq<Entry>, a: Book, k: nat, b: Book, m: nat)
    ensures Rows(Rows(ledger, a, k), b, m) == Rows(Rows(ledger, b, m), a, k)
  {
    if ledger != [] {
      var init, last := ledger[..|ledger| - 1], ledger[|ledger| - 1];
      assert ledger == init + [last];
      RowsAppend(init, last, a, k);
      RowsAppend(init, last, b, m);
      RowsCommute(init, a, k, b, m);
      RowsAppend(Rows(init, a, k), last, b, m);
      RowsAppend(Rows(init, b, m), last, a, k);
      assert Rows(init, a, k) + [] == Rows(init, a, k) && Rows(init, b, m) + [] == Rows(init, b, m);
    }
  }

  /** Pending debits among the rows of a payout. */
  function PendingDebits(rows: seq<Entry>): int {
    if rows == [] then 0
    else PendingDebits(rows[..|rows| - 1])
         + (var e := rows[|rows| - 1]; if e.direction.Debit? && e.status.Pending? then e.amount else 0)
  }

  /** Voiding gives a wallet back exactly the payout's pending debits booked on it. */
  lemma {:induction false} VoidReturns(rows: seq<Entry>, payout: nat, to: EntryStatus)
    requires !to.Success? && !to.Pending?
    ensures Total(VoidEntries(rows, payout, to), WalletBook) ==
            Total(rows, WalletBook) + PendingDebits(Rows(rows, PayoutBook, payout))
  {
    if rows != [] {
      var init, last := rows[..|rows| - 1], rows[|rows| - 1];
      assert rows == init + [last];
      VoidAppend(init, last, payout, to);
      RowsAppend(init, last, PayoutBook, payout);
      VoidReturns(init, payout, to);
      var mine := Rows(init, PayoutBook, payout);
      assert mine + [] == mine;
      assert (mine + [last])[..|mine|] == mine;
    }
  }

  // ----- adding up a whole book

  function SumNets(ledger: seq<Entry>, book: Book, n: nat): int {
    if n == 0 then 0 else SumNets(ledger, book, n - 1) + Net(ledger, book, n - 1)
  }

  lemma {:induction false} SumNetsAppend(ledger: seq<Entry>, e: Entry, book: Book, n: nat)
    ensures SumNets(ledger + [e], book, n) == SumNets(ledger, book, n)
            + if Key(e, book).Some? && Key(e, book).value < n then Amount(e, book) else 0
  {
    if n > 0 {
      SumNetsAppend(ledger, e, book, n - 1);
      RowsAppend(ledger, e, book, n - 1);
    }
  }

  lemma {:induction false} SumNetsEmpty(book: Book, n: nat)
    ensures SumNets([], book, n) == 0
  {
    if n > 0 {
      SumNetsEmpty(book, n - 1);
    }
  }

  /** Entries without a key in the book carry nothing there. */
  ghost predicate Booked(e: Entry, book: Book, n: nat) {
    match Key(e, book)
    case Some(k) => k < n
    case None => Amount(e, book) == 0
  }

  /** Summing key by key is summing entry by entry. */
  lemma {:induction false} BookAddsUp(ledger: seq<Entry>, book: Book, n: nat)
    requires forall e :: e in ledger ==> Booked(e, book, n)
    ensures SumNets(ledger, book, n) == Total(ledger, book)
  {
    if ledger == [] {
      SumNetsEmpty(book, n);
    } else {
      var init, last := ledger[..|ledger| - 1], ledger[|ledger| - 1];
      assert ledger == init + [last];
      BookAddsUp(init, book, n);
      SumNetsAppend(init, last, book, n);
      assert Booked(last, book, n);
    }
  }

  /** An entry that is a credit from outside, or moves money between a wallet and an order or payout. */
  ghost predicate Balanced(e: Entry) {
    Amount(e, WalletBook) + Amount(e, OrderBook) + Amount(e, PayoutBook) == Income(e)
  }

  lemma {:induction false} BooksBalance(ledger: seq<Entry>)
    requires forall e :: e in ledger ==> Balanced(e)
    ensures Total(ledger, WalletBook) + Total(ledger, OrderBook) + Total(ledger, PayoutBook) == TotalIncome(ledger)
  {
    if ledger != [] {
      BooksBalance(ledger[..|ledger| - 1]);
      assert Balanced(ledger[|ledger| - 1]);
    }
  }
}
