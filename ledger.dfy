/** Value types shared by both variants of the ledger, and the account-level
    operations whose code is the same in payment-handler.go and hello.go.

    Amounts are the source's float64 balances, modelled as exact reals. */
module Ledger {

  /** The record type column. Anything other than the five known names is
      kept as `Other`, which both dispatchers treat as an unknown type. */
  datatype TxType = Deposit | Withdraw | Dispute | Chargeback | Resolve | Other(name: string)

  /** A transaction as stored in an account's transaction map. Note that the
      source stores the CUSTOMER id in `id`, not the transaction id. */
  datatype Transaction = Transaction(id: int, txType: TxType, amount: real)

  /** One already-parsed input row: type, customer id, transaction id, amount
      (the amount is not used by dispute, chargeback and resolve rows). */
  datatype Record = Record(txType: TxType, customerId: int, transactionId: int, amount: real)

  /** Why a record was refused. In payment-handler.go each is a returned
      error; in hello.go each is a panic that aborts the run. */
  datatype Error =
    | AccountNotFound
    | AccountFrozen
    | InsufficientFunds
    | TransactionNotFound
    | InsufficientHeldFunds
    | UnknownTransactionType

  datatype Option<T> = None | Some(value: T)

  /** The outcome of an operation that either succeeds with a new value or
      fails and changes nothing. */
  datatype Result<T> = Ok(value: T) | Err(error: Error) {

    /** The value after the operation: the new one, or `fallback` on failure. */
    function ValueOr(fallback: T): T {
      if Ok? then value else fallback
    }

    /** The error the operation reports, if any. */
    function ErrorOf(): Option<Error> {
      if Ok? then None else Some(error)
    }
  }

  /** The fields of one `Account` at one moment. */
  datatype AccountState = AccountState(
    id: int,
    available: real,
    hold: real,
    total: real,
    frozen: bool,
    transactions: map<int, Transaction>)

  /** The account store: customer id to account. */
  type Store = map<int, AccountState>

  /** The ledger identity every account is meant to keep. */
  predicate Balanced(a: AccountState) {
    a.total == a.available + a.hold
  }

  predicate StoreBalanced(s: Store) {
    forall c :: c in s ==> Balanced(s[c])
  }

  /** A freshly created account: zero balances, unfrozen, no transactions. */
  function NewAccount(customerId: int): AccountState {
    AccountState(customerId, 0.0, 0.0, 0.0, false, map[])
  }

  /** Lazy account creation: an existing account is returned, an unknown
      customer gets a new account only for a deposit. */
  function GetOrCreateAccount(s: Store, customerId: int, txType: TxType): (r: Result<Store>)
    ensures r.Ok? <==> customerId in s || txType == Deposit
    ensures r.Err? ==> r.error == AccountNotFound
    ensures r.Ok? ==> r.value.Keys == s.Keys + {customerId}
    ensures r.Ok? ==> forall c :: c in s ==> r.value[c] == s[c]
    ensures r.Ok? && customerId !in s ==> r.value[customerId] == NewAccount(customerId)
  {
    if customerId in s then Ok(s)
    else if txType != Deposit then Err(AccountNotFound)
    else Ok(s[customerId := NewAccount(customerId)])
  }

  /** Deposit (`isWithdrawal` false) or withdraw (`isWithdrawal` true) of
      `amount`, recording the transaction under `transactionId`. */
  function UpdateAccountBalance(a: AccountState, customerId: int, transactionId: int, amount: real, isWithdrawal: bool)
    : (r: Result<AccountState>)
    // only a withdrawal beyond the available funds is refused
    ensures r.Err? <==> isWithdrawal && a.available < amount
    ensures r.Err? ==> r.error == InsufficientFunds
    // a deposit credits, a withdrawal debits, available and total alike
    ensures r.Ok? && !isWithdrawal ==>
      r.value.available == a.available + amount && r.value.total == a.total + amount
    ensures r.Ok? && isWithdrawal ==>
      r.value.available == a.available - amount && r.value.total == a.total - amount
    ensures r.Ok? ==> r.value.hold == a.hold && r.value.frozen == a.frozen && r.value.id == a.id
    // the transaction is stored (overwriting) under its id, with the customer id in its `id` field
    ensures r.Ok? ==> r.value.transactions.Keys == a.transactions.Keys + {transactionId}
    ensures r.Ok? ==>
      r.value.transactions[transactionId] == Transaction(customerId, if isWithdrawal then Withdraw else Deposit, amount)
    ensures r.Ok? ==>
      forall t :: t in a.transactions && t != transactionId ==> r.value.transactions[t] == a.transactions[t]
    ensures r.Ok? && Balanced(a) ==> Balanced(r.value)
  {
    if isWithdrawal && a.available < amount then Err(InsufficientFunds)
    else
      var delta := if isWithdrawal then -amount else amount;
      var txType := if isWithdrawal then Withdraw else Deposit;
      Ok(a.(total := a.total + delta,
            available := a.available + delta,
            transactions := a.transactions[transactionId := Transaction(customerId, txType, amount)]))
  }

  /** Chargeback of the transaction stored under `transactionId`: freezes the
      account and removes the stored amount from hold and total. No check is
      made that the transaction was disputed. */
  function HandleChargeback(a: AccountState, transactionId: int): (r: Result<AccountState>)
    ensures r.Err? <==> transactionId !in a.transactions
    ensures r.Err? ==> r.error == TransactionNotFound
    ensures r.Ok? ==>
      var x := a.transactions[transactionId].amount;
      r.value.frozen && r.value.hold == a.hold - x && r.value.total == a.total - x
    ensures r.Ok? ==>
      r.value.available == a.available && r.value.transactions == a.transactions && r.value.id == a.id
    ensures r.Ok? && Balanced(a) ==> Balanced(r.value)
  {
    if transactionId !in a.transactions then Err(TransactionNotFound)
    else
      var x := a.transactions[transactionId].amount;
      Ok(a.(frozen := true, hold := a.hold - x, total := a.total - x))
  }

  /** The customers that a sequence of records names in a deposit: the only
      records that can open an account. */
  function DepositCustomers(records: seq<Record>): set<int> {
    if records == [] then {}
    else (if records[0].txType == Deposit then {records[0].customerId} else {}) + DepositCustomers(records[1..])
  }
}
