/** The account store as the source keeps it: a `Customers` object holding a
    map from customer id to `Account` objects that the handlers update in
    place. Each method here is proved against the function of the same name
    in module Ledger. */
module Store {
  import opened Ledger

  /** Go's `Account`: balances and the transaction map, updated in place. */
  class Account {
    var id: int
    var available: real
    var hold: real
    var total: real
    var frozen: bool
    var transactions: map<int, Transaction>

    /** The account opened for an unknown customer's first deposit. */
    constructor (customerId: int)
      ensures State() == NewAccount(customerId)
    {
      id := customerId;
      available, hold, total := 0.0, 0.0, 0.0;
      frozen := false;
      transactions := map[];
    }

    /** The account's fields as a value. */
    function State(): AccountState
      reads this
    {
      AccountState(id, available, hold, total, frozen, transactions)
    }
  }

  /** Go's `Customers`: the map of accounts, keyed by customer id. */
  class Customers {
    var accounts: map<int, Account>

    constructor ()
      ensures Valid() && accounts == map[]
    {
      accounts := map[];
    }

    /** Every account is filed under its own id. This also makes the account
        objects of different customers distinct, so updating one leaves the
        others alone. */
    ghost predicate Valid()
      reads this, accounts.Values
    {
      forall c :: c in accounts ==> accounts[c].id == c
    }

    /** The store as a value. */
    function Snapshot(): Store
      reads this, accounts.Values
    {
      map c | c in accounts :: accounts[c].State()
    }
  }

  /** Looks up the customer's account, creating it on a first deposit. On
      failure the store is untouched and no account is returned. */
  method GetOrCreateAccount(customers: Customers, customerId: int, txType: TxType)
    returns (account: Account?, err: Option<Error>)
    requires customers.Valid()
    modifies customers
    ensures customers.Valid()
    ensures customers.Snapshot() ==
      Ledger.GetOrCreateAccount(old(customers.Snapshot()), customerId, txType).ValueOr(old(customers.Snapshot()))
    ensures err == Ledger.GetOrCreateAccount(old(customers.Snapshot()), customerId, txType).ErrorOf()
    ensures err.None? <==> account != null
    ensures account != null ==> customerId in customers.accounts && customers.accounts[customerId] == account
    ensures forall c :: c in old(customers.accounts) ==>
      c in customers.accounts && customers.accounts[c] == old(customers.accounts[c])
    ensures forall a :: a in customers.accounts.Values ==> a in old(customers.accounts.Values) || fresh(a)
  {
    if customerId !in customers.accounts {
      if txType != Deposit {
        return null, Some(AccountNotFound);
      }
      var created := new Account(customerId);
      customers.accounts := customers.accounts[customerId := created];
      assert customers.Snapshot() == old(customers.Snapshot())[customerId := NewAccount(customerId)];
    }
    account, err := customers.accounts[customerId], None;
  }

  /** Deposit or withdraw on one account; see Ledger.UpdateAccountBalance. */
  method UpdateAccountBalance(account: Account, customerId: int, transactionId: int, amount: real, isWithdrawal: bool)
    returns (err: Option<Error>)
    modifies account
    ensures account.State() ==
      Ledger.UpdateAccountBalance(old(account.State()), customerId, transactionId, amount, isWithdrawal).ValueOr(old(account.State()))
    ensures err == Ledger.UpdateAccountBalance(old(account.State()), customerId, transactionId, amount, isWithdrawal).ErrorOf()
  {
    if isWithdrawal {
      if account.available < amount {
        return Some(InsufficientFunds);
      }
      account.total := account.total - amount;
      account.available := account.available - amount;
    } else {
      account.total := account.total + amount;
      account.available := account.available + amount;
    }
    var txType := if isWithdrawal then Withdraw else Deposit;
    account.transactions := account.transactions[transactionId := Transaction(customerId, txType, amount)];
    return None;
  }

  /** Chargeback on one account; see Ledger.HandleChargeback. */
  method HandleChargeback(account: Account, transactionId: int) returns (err: Option<Error>)
    modifies account
    ensures account.State() == Ledger.HandleChargeback(old(account.State()), transactionId).ValueOr(old(account.State()))
    ensures err == Ledger.HandleChargeback(old(account.State()), transactionId).ErrorOf()
  {
    if transactionId !in account.transactions {
      return Some(TransactionNotFound);
    }
    account.frozen := true;
    account.hold := account.hold - account.transactions[transactionId].amount;
    account.total := account.total - account.transactions[transactionId].amount;
    return None;
  }
}
