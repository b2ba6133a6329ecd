/** hello.go as it runs: in-place handlers on `Account` objects, `handleRow`
    over the `Customers` store, and the main loop, which a panic ends. Each
    method is proved to do what the function of the same name in HelloSpec
    says; a returned error stands for the panic. */
module Hello {
  import opened Ledger
  import opened Store
  import Spec = HelloSpec

  /** handleDispute on one account. */
  method HandleDispute(account: Account, transactionId: int) returns (panic: Option<Error>)
    modifies account
    ensures account.State() == Spec.HandleDispute(old(account.State()), transactionId).ValueOr(old(account.State()))
    ensures panic == Spec.HandleDispute(old(account.State()), transactionId).ErrorOf()
  {
    if transactionId !in account.transactions {
      return Some(TransactionNotFound);
    }
    var disputeAmount := account.transactions[transactionId].amount;
    if account.available < disputeAmount {
      account.hold := account.available;
      account.available := 0.0;
    }
    account.available := account.available - disputeAmount;
    account.hold := account.hold + disputeAmount;
    return None;
  }

  /** handleResolve on one account. */
  method HandleResolve(account: Account, transactionId: int) returns (panic: Option<Error>)
    modifies account
    ensures account.State() == Spec.HandleResolve(old(account.State()), transactionId).ValueOr(old(account.State()))
    ensures panic == Spec.HandleResolve(old(account.State()), transactionId).ErrorOf()
  {
    if transactionId !in account.transactions {
      return Some(TransactionNotFound);
    }
    account.frozen := false;
    account.available := account.available + account.transactions[transactionId].amount;
    account.hold := 0.0;
    return None;
  }

  /** The `switch` of handleRow. */
  method Dispatch(account: Account, row: Record) returns (panic: Option<Error>)
    modifies account
    ensures account.State() == Spec.Dispatch(old(account.State()), row).ValueOr(old(account.State()))
    ensures panic == Spec.Dispatch(old(account.State()), row).ErrorOf()
  {
    match row.txType {
      case Deposit =>
        panic := Store.UpdateAccountBalance(account, row.customerId, row.transactionId, row.amount, false);
      case Withdraw =>
        panic := Store.UpdateAccountBalance(account, row.customerId, row.transactionId, -row.amount, true);
      case Dispute =>
        panic := HandleDispute(account, row.customerId);
      case Chargeback =>
        panic := Store.HandleChargeback(account, row.customerId);
      case Resolve =>
        panic := HandleResolve(account, row.customerId);
      case Other(_) =>
        panic := None;
    }
  }

  /** handleRow: the store afterwards and the panic, if any, are those of
      HelloSpec.HandleRow. */
  method HandleRow(customers: Customers, row: Record) returns (panic: Option<Error>)
    requires customers.Valid()
    modifies customers, customers.accounts.Values
    ensures customers.Valid()
    ensures customers.Snapshot() == Spec.HandleRow(old(customers.Snapshot()), row).store
    ensures panic == Spec.HandleRow(old(customers.Snapshot()), row).panic
    ensures forall a :: a in customers.accounts.Values ==> a in old(customers.accounts.Values) || fresh(a)
  {
    var account, accountError := Store.GetOrCreateAccount(customers, row.customerId, row.txType);
    if accountError.Some? {
      return accountError;
    }
    ghost var found := customers.Snapshot();
    panic := Dispatch(account, row);
    forall c | c in customers.accounts
      ensures customers.Snapshot()[c] == found[row.customerId := account.State()][c]
    {
      if c != row.customerId {
        assert customers.accounts[c] != account;
      }
    }
  }

  /** The main loop: rows are applied in order; the first panic ends the
      run, leaving the store as that row found it. */
  method ProcessRows(customers: Customers, rows: seq<Record>) returns (panic: Option<Error>)
    requires customers.Valid()
    modifies customers, customers.accounts.Values
    ensures customers.Valid()
    ensures Spec.Run(old(customers.Snapshot()), rows) == Spec.Outcome(customers.Snapshot(), panic)
  {
    var i := 0;
    while i < |rows|
      invariant 0 <= i <= |rows|
      invariant customers.Valid()
      invariant Spec.Run(old(customers.Snapshot()), rows) == Spec.Run(customers.Snapshot(), rows[i..])
      invariant forall a :: a in customers.accounts.Values ==> a in old(customers.accounts.Values) || fresh(a)
    {
      assert rows[i..][0] == rows[i] && rows[i..][1..] == rows[i + 1..];
      panic := HandleRow(customers, rows[i]);
      if panic.Some? {
        return;
      }
      i := i + 1;
    }
    return None;
  }
}
