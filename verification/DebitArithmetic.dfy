/** The arithmetic of charging an order, as floating point does it: every double is its exact value in
    cents plus some error, and parts are rounded with `toFixed(2)`. Within an accumulated error of 1e-9 it
    decides and splits exactly as integer cents would. */
module DebitArithmetic {
  import opened Results
  import opened Money
  import opened Rounding

  /** How far each double is from its exact value: the three rows read, their sum and their difference. */
  datatype Errors = Errors(credits: real, balance: real, amount: real, sum: real, difference: real)

  const TOLERANCE: real := 0.000000001

  /** The test `giftCredits + balance + 1e-9 < amount`. */
  predicate Refuses(giftCredits: nat, balance: nat, amount: nat, e: Errors) {
    (Cents(giftCredits) + e.credits) + (Cents(balance) + e.balance) + e.sum + TOLERANCE < Cents(amount) + e.amount
  }

  function Accumulated(e: Errors): real {
    e.credits + e.balance + e.sum - e.amount
  }

  /** The test refuses exactly when funds fall short, for all amounts, if and only if the accumulated error
      lies from -1e-9 up to one cent less 1e-9. */
  lemma RefusesExactly(e: Errors)
    ensures (forall giftCredits: nat, balance: nat, amount: nat ::
               Refuses(giftCredits, balance, amount, e) <==> giftCredits + balance < amount)
            <==> -0.000000001 <= Accumulated(e) < 0.01 - 0.000000001
  {
    if -TOLERANCE <= Accumulated(e) < 0.01 - TOLERANCE {
      forall giftCredits: nat, balance: nat, amount: nat
        ensures Refuses(giftCredits, balance, amount, e) <==> giftCredits + balance < amount
      {
        RefusesBy(giftCredits, balance, amount, e);
      }
    } else {
      RefusesBy(0, 0, 0, e);
      RefusesBy(0, 0, 1, e);
      assert Refuses(0, 0, 0, e) || !Refuses(0, 0, 1, e);
    }
  }

  lemma RefusesBy(giftCredits: nat, balance: nat, amount: nat, e: Errors)
    ensures Refuses(giftCredits, balance, amount, e) <==>
            Cents(giftCredits + balance - amount) + Accumulated(e) + TOLERANCE < 0.0
    ensures giftCredits + balance < amount ==> Cents(giftCredits + balance - amount) <= -0.01
    ensures giftCredits + balance >= amount ==> Cents(giftCredits + balance - amount) >= 0.0
  {
  }

  function MinReal(a: real, b: real): real {
    if a < b then a else b
  }

  /** The parts taken from gift credits and from cash, in cents; nothing when refused. */
  function Split(giftCredits: nat, balance: nat, amount: nat, e: Errors): Option<(int, int)> {
    if Refuses(giftCredits, balance, amount, e) then None
    else
      var giftCreditsUsed := ToFixed(MinReal(Cents(giftCredits) + e.credits, Cents(amount) + e.amount));
      var balanceUsed := ToFixed(Cents(amount) + e.amount - Cents(giftCreditsUsed) + e.difference);
      Some((giftCreditsUsed, balanceUsed))
  }

  ghost predicate Small(e: Errors) {
    && -TOLERANCE <= e.credits <= TOLERANCE
    && -TOLERANCE <= e.amount <= TOLERANCE
    && -TOLERANCE <= e.difference <= TOLERANCE
    && -TOLERANCE <= Accumulated(e) <= TOLERANCE
  }

  /** Within the tolerance the charge goes through exactly when the funds suffice; its parts add up to the
      total to the cent, gift credits are spent first, and neither part exceeds what is there. */
  lemma SplitExact(giftCredits: nat, balance: nat, amount: nat, e: Errors)
    requires Small(e)
    ensures var r := Split(giftCredits, balance, amount, e);
            && (r.Some? <==> giftCredits + balance >= amount)
            && (r.Some? ==>
                  var (giftCreditsUsed, balanceUsed) := r.value;
                  && giftCreditsUsed + balanceUsed == amount
                  && 0 <= giftCreditsUsed <= giftCredits && 0 <= balanceUsed <= balance
                  && (balanceUsed > 0 ==> giftCreditsUsed == giftCredits))
  {
  }

  /** So the charge on the rows is the one in integer cents. */
  lemma DebitIsInteger(s: State, user: nat, order: nat, amount: nat, e: Errors)
    requires Small(e)
    ensures var r := DebitCustomer(s, user, order, amount);
            match FindWallet(s.wallets, Customer(user)) {
              case None => r.Failed?
              case Some(w) =>
                var wallet := s.wallets[w];
                wallet.giftCredits >= 0 && wallet.balance >= 0 && !HasOrderEntry(s.ledger, w, order, OrderPayment) ==>
                  match Split(wallet.giftCredits, wallet.balance, amount, e)
                  case None => r.Failed?
                  case Some(parts) =>
                    (&& r.Ok? && w < |r.value.wallets|
                     && r.value.wallets[w]
                         == wallet.(giftCredits := wallet.giftCredits - parts.0, balance := wallet.balance - parts.1))
            }
  {
    hide Split;
    var found := FindWallet(s.wallets, Customer(user));
    if found.Some? && s.wallets[found.value].giftCredits >= 0 && s.wallets[found.value].balance >= 0 {
      SplitExact(s.wallets[found.value].giftCredits, s.wallets[found.value].balance, amount, e);
    }
  }
}
