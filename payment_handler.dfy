/** payment-handler.go as it runs: handlers that update an `Account` object in
    place, the dispatcher `handleTransaction` over the `Customers` store, and
    the main loop over the parsed records. Each method is proved to do what
    the function of the same name in PaymentHandlerSpec says. */
module PaymentHandler {
  import opened Ledger
  import opened Store
  import Spec = PaymentHandlerSpec

  /** handleDispute on one account. */
  method HandleDispute(account: Account, transactionId: int) returns (err: Option<Error>)
    modifies account
    ensures account.State() == Spec.HandleDispute(old(account.State()), transactionId).ValueOr(old(account.State()))
    ensures err == Spec.HandleDispute(old(account.State()), transactionId).ErrorOf()
  {
    if transactionId !in account.transactions {
      return Some(TransactionNotFound);
    }
    var disputeAmount := account.transactions[transactionId].amount;
    if account.available < disputeAmount {
      return Some(InsufficientFunds);
    }
    account.available := account.available - disputeAmount;
    account.hold := account.hold + disputeAmount;
    return None;
  }

  /** handleResolve on one account. */
  method HandleResolve(account: Account, transactionId: int) returns (err: Option<Error>)
    modifies account
    ensures account.State() == Spec.HandleResolve(old(account.State()), transactionId).ValueOr(old(account.State()))
    ensures err == Spec.HandleResolve(old(account.State()), transactionId).ErrorOf()
  {
    if transactionId !in account.transactions {
      return Some(TransactionNotFound);
    }
    if account.hold < account.transactions[transactionId].amount {
      return Some(InsufficientHeldFunds);
    }
    account.frozen := false;
    account.available := account.available + account.transactions[transactionId].amount;
    account.hold := account.hold - account.transactions[transactionId].amount;
    return None;
  }

  /** The `switch` of handleTransaction, on an account that passed the
      frozen check. */
  method Dispatch(account: Account, record: Record) returns (err: Option<Error>)
    modifies account
    ensures account.State() == Spec.Dispatch(old(account.State()), record).ValueOr(old(account.State()))
    ensures err == Spec.Dispatch(old(account.State()), record).ErrorOf()
  {
    match record.txType {
      case Deposit =>
        err := Store.UpdateAccountBalance(account, record.customerId, record.transactionId, record.amount, false);
      case Withdraw =>
        err := Store.UpdateAccountBalance(account, record.customerId, record.transactionId, record.amount, true);
      case Dispute =>
        err := HandleDispute(account, record.transactionId);
      case Chargeback =>
        err := Store.HandleChargeback(account, record.transactionId);
      case Resolve =>
        err := HandleResolve(account, record.transactionId);
      case Other(_) =>
        err := Some(UnknownTransactionType);
    }
  }

  /** handleTransaction: the store afterwards and the reported error are
      those of PaymentHandlerSpec.HandleTransaction. */
  method HandleTransaction(customers: Customers, record: Record) returns (err: Option<Error>)
    requires customers.Valid()
    modifies customers, customers.accounts.Values
    ensures customers.Valid()
    ensures customers.Snapshot() == Spec.HandleTransaction(old(customers.Snapshot()), record).store
    ensures err == Spec.HandleTransaction(old(customers.Snapshot()), record).error
    ensures forall a :: a in customers.accounts.Values ==> a in old(customers.accounts.Values) || fresh(a)
  {
    var account, accountError := Store.GetOrCreateAccount(customers, record.customerId, record.txType);
    if accountError.Some? {
      return accountError;
    }
    if account.frozen && record.txType != Resolve {
      return Some(AccountFrozen);
    }
    ghost var found := customers.Snapshot();
    err := Dispatch(account, record);
    forall c | c in customers.accounts
      ensures customers.Snapshot()[c] == found[record.customerId := account.State()][c]
    {
      if c != record.customerId {
        assert customers.accounts[c] != account;
      }
    }
  }

  /** The main loop: every record is applied in order, and a refused record
      is reported and skipped without stopping the run. */
  method ProcessRecords(customers: Customers, records: seq<Record>)
    requires customers.Valid()
    modifies customers, customers.accounts.Values
    ensures customers.Valid()
    ensures customers.Snapshot() == Spec.Run(old(customers.Snapshot()), records)
  {
    var i := 0;
    while i < |records|
      invariant 0 <= i <= |records|
      invariant customers.Valid()
      invariant Spec.Run(old(customers.Snapshot()), records) == Spec.Run(customers.Snapshot(), records[i..])
      invariant forall a :: a in customers.accounts.Values ==> a in old(customers.accounts.Values) || fresh(a)
    {
      assert records[i..][0] == records[i] && records[i..][1..] == records[i + 1..];
      var _ := HandleTransaction(customers, records[i]);
      i := i + 1;
    }
  }
}
