# Payment handler ledger in Dafny

This project models the account ledger of the payment-handler repository. It
takes in a stream of transaction records: deposit, withdraw, dispute,
chargeback and resolve, each keyed by a customer id and a transaction id. It
keeps one account per customer, holding available, held and total funds, a
frozen flag and the account's recorded transactions. The repository has two
variants of the ledger:

- `payment-handler.go` is the current one. A refused record is reported and
  skipped, and a frozen account accepts nothing but a resolve.
- `hello.go` is the earlier one. Every failure is a `panic` that ends the run.
  It has no frozen check. It passes the negated amount for a withdraw, and it
  looks up disputed, charged-back and resolved transactions by customer id.

Modules:

- `Ledger` (ledger.dfy): the value types (`Transaction`, `Record`,
  `AccountState`, the store as a map, the error taxonomy). It also holds the
  three account operations whose code is the same in both files:
  `getOrCreateAccount`, `updateAccountBalance` and `handleChargeback`.
  hello.go:68-82, 84-105 and 125-135 repeat payment-handler.go:131-170 and
  190-201. They differ only in that hello.go panics where payment-handler.go
  returns an error, and `Result.Err` stands for both.
- `Store` (store.dfy): Go's `Account` and `Customers` as classes that are
  updated in place. It has imperative versions of the shared operations, each
  proved equal to its `Ledger` function.
- `PaymentHandlerSpec` / `PaymentHandler`: payment-handler.go. The spec
  module states the rules as functions on values, with lemmas about runs. The
  other module holds the in-place handlers, `handleTransaction` and the main
  loop. Each of those is proved to leave `Customers.Snapshot()` equal to the
  spec function's result.
- `HelloSpec` / `Hello`: the same pair for hello.go. A panic is an `Outcome`
  whose `panic` field is set, and the run stops there.
- `Divergence`: where the two variants agree and where they differ.

Where the code and the usual reading of a ledger disagree, the model follows
the code:

- Chargeback and resolve do not check that the transaction is under dispute.
  A chargeback of an undisputed deposit drives `hold` negative
  (`ChargebackWithoutDispute`). A resolve of an undisputed transaction
  releases the funds held for another one (`ResolveWithoutDispute`).
- A repeated resolve of the same transaction is accepted whenever the hold
  still covers its amount, for instance because another transaction is under
  dispute. It then credits the amount a second time, so a repeated resolve
  is not guaranteed to be refused (`ResolveTwiceCreditsTwice`).
- Every resolve clears the frozen flag.
- An unknown record type is only logged in payment-handler.go. It is
  modelled as the error `UnknownTransactionType` with the store unchanged.
- `Transaction.id` holds the customer id, as both files store it.

## Model

| member | source | states |
|---|---|---|
| Ledger.GetOrCreateAccount | payment-handler.go:131-145 | succeeds iff the customer has an account or the record is a deposit, otherwise `AccountNotFound`; the store gains exactly that customer's key, keeps every existing account, and a new account is zeroed, unfrozen and empty |
| Ledger.UpdateAccountBalance | payment-handler.go:147-170 | refused with `InsufficientFunds` iff a withdrawal exceeds available; a deposit adds to available and total, a withdrawal subtracts from both; hold and frozen are kept; the transaction is stored under its id with the customer id; other transactions are kept; total == available + hold is preserved |
| Ledger.HandleChargeback | payment-handler.go:190-201 | refused with `TransactionNotFound` iff the id is not recorded; otherwise freezes the account and removes the stored amount from hold and total, leaving available and the transactions; preserves total == available + hold |
| Store.Account.constructor | payment-handler.go:141 | a new account has zero balances, is unfrozen and has no transactions |
| Store.Customers.constructor | payment-handler.go:36 | the store starts empty |
| Store.GetOrCreateAccount | payment-handler.go:131-145 | the in-place lookup/creation changes the store as `Ledger.GetOrCreateAccount` says, returns the account filed under the customer id iff there is no error, and keeps every existing account object |
| Store.UpdateAccountBalance | payment-handler.go:147-170 | the in-place update leaves the account as `Ledger.UpdateAccountBalance` says and returns its error |
| Store.HandleChargeback | payment-handler.go:190-201 | the in-place chargeback leaves the account as `Ledger.HandleChargeback` says and returns its error |
| PaymentHandlerSpec.HandleDispute | payment-handler.go:172-188 | refused iff the transaction is missing (`TransactionNotFound`) or larger than available (`InsufficientFunds`); otherwise moves the amount from available to hold; total, frozen and the transactions are kept; available stays non-negative and the balance identity is preserved |
| PaymentHandlerSpec.HandleResolve | payment-handler.go:203-218 | refused iff the transaction is missing (`TransactionNotFound`) or larger than the hold (`InsufficientHeldFunds`); otherwise unfreezes and moves the amount from hold back to available; hold stays non-negative and the balance identity is preserved |
| PaymentHandlerSpec.DispatchRoutes | payment-handler.go:111-124 | the switch `PaymentHandlerSpec.Dispatch` keeps the account id; dispute, chargeback and resolve select the transaction by the record's transaction id, refuse a missing one with `TransactionNotFound` and never alter the transaction map; deposit and withdraw record the amount under the transaction id; a deposit always succeeds; an unknown type is refused with `UnknownTransactionType`; the balance identity is preserved |
| PaymentHandlerSpec.HandleTransaction | payment-handler.go:95-129 | a refused record changes nothing; only a deposit opens an account, and a first deposit opens one holding just that deposit; an unknown customer otherwise gets `AccountNotFound`; a frozen account refuses everything but a resolve with `AccountFrozen`; an unknown type changes nothing and is reported; other customers are untouched; dispute, chargeback and resolve never alter a transaction map; the balance identity of every account is preserved |
| PaymentHandlerSpec.Run | payment-handler.go:38-51 | the main loop applies every record in order, whatever the outcome of the earlier ones; no account is ever removed (what else holds of it is stated by the run lemmas below) |
| PaymentHandlerSpec.RunAppend | payment-handler.go:38-51 | running two batches of records in turn is running them together |
| PaymentHandlerSpec.RunPreservesBalance | payment-handler.go:38-51 | every account keeps total == available + hold through any sequence of records |
| PaymentHandlerSpec.RunOpensAccountsOnlyByDeposit | payment-handler.go:131-145 | after a run the accounts are exactly the initial ones plus the customers named in deposit records |
| PaymentHandlerSpec.FrozenUntilResolve | payment-handler.go:104-107 | a frozen account is left exactly as it is by any run without a resolve record for its customer |
| PaymentHandlerSpec.TransactionsChangeOnlyByDepositOrWithdraw | payment-handler.go:172-218 | an account's transactions are unchanged by any run without deposit or withdraw records for its customer |
| PaymentHandlerSpec.DisputeThenResolve | payment-handler.go:172-218 | a successful dispute followed by a resolve of the same transaction restores the store exactly (for an account whose hold was non-negative) |
| PaymentHandlerSpec.DisputeThenChargeback | payment-handler.go:172-201 | a successful dispute followed by its chargeback removes the amount from available and total for good, freezes the account, and from then on deposits and withdrawals are refused with `AccountFrozen` |
| PaymentHandlerSpec.SecondResolveRefused | payment-handler.go:209-211 | after dispute and resolve, resolving the same transaction again is refused with `InsufficientHeldFunds` exactly when the starting hold is below the amount; when that hold covers the amount, the repeat is accepted and credits the amount again |
| PaymentHandlerSpec.ResolveTwiceCreditsTwice | payment-handler.go:203-218 | deposits 1 and 2 of 5 each, disputes of 2 and then 1, and two resolves of 1 end with available 10, hold 0, total 10, unfrozen: deposit 1 is credited back twice and deposit 2's hold is released without any resolve of 2 |
| PaymentHandlerSpec.WithdrawDebits | payment-handler.go:114-115 | a withdraw on an unfrozen account succeeds iff available covers the amount (otherwise `InsufficientFunds`), and then debits available and total and records the withdrawal |
| PaymentHandlerSpec.DisputeFindsTransactionById | payment-handler.go:116-117 | a dispute on an unfrozen account succeeds iff the record's transaction id is recorded and available covers its amount, and then adds that amount to hold |
| PaymentHandlerSpec.ChargebackSample | payment-handler.go:38-51 | deposits of 5 and 3, a dispute of the first and its chargeback leave customer 1 the only account, with available 3, hold 0, total 3, frozen, both deposits recorded |
| PaymentHandlerSpec.ChargebackWithoutDispute | payment-handler.go:190-201 | a chargeback of an undisputed deposit of 5 leaves hold at -5 |
| PaymentHandlerSpec.ResolveWithoutDispute | payment-handler.go:203-218 | with deposits 1 and 2 of 5 each and deposit 2 disputed, resolving deposit 1 releases deposit 2's hold: available 10, hold 0 |
| PaymentHandler.HandleDispute | payment-handler.go:172-188 | the in-place dispute leaves the account as `PaymentHandlerSpec.HandleDispute` says and returns its error |
| PaymentHandler.HandleResolve | payment-handler.go:203-218 | the in-place resolve leaves the account as `PaymentHandlerSpec.HandleResolve` says and returns its error |
| PaymentHandler.Dispatch | payment-handler.go:111-124 | the switch on the record type updates the account and reports the error as `PaymentHandlerSpec.Dispatch` says |
| PaymentHandler.HandleTransaction | payment-handler.go:95-129 | the store afterwards and the error are those of `PaymentHandlerSpec.HandleTransaction`; the store stays well formed |
| PaymentHandler.ProcessRecords | payment-handler.go:38-51 | the main loop leaves the store equal to `PaymentHandlerSpec.Run` over the records, in order |
| HelloSpec.HandleDispute | hello.go:107-123 | panics iff the transaction is missing; with enough funds moves the amount from available to hold; short of funds leaves available at minus the amount and hold at the old available plus the amount; the balance identity survives iff the funds sufficed or the hold was zero |
| HelloSpec.HandleResolve | hello.go:137-147 | panics iff the transaction is missing; otherwise unfreezes, credits the amount to available and sets hold to zero; the balance identity survives iff the hold was exactly the amount |
| HelloSpec.DispatchRoutes | hello.go:52-65 | the switch `HelloSpec.Dispatch` keeps the account id; dispute, chargeback and resolve select the transaction by the CUSTOMER id, panicking iff none is recorded under it, and never alter the transaction map; deposit records the amount and withdraw the negated amount under the transaction id; a deposit never panics; an unknown type leaves the account as it was |
| HelloSpec.HandleRow | hello.go:43-66 | a panic changes nothing; only a deposit opens an account and a deposit never panics, frozen or not; an unknown customer otherwise panics; other customers are untouched; a withdraw succeeds iff available covers minus the amount, and then credits the amount and records it negated; dispute, chargeback and resolve succeed iff a transaction is recorded under the customer id; an unknown type changes nothing |
| HelloSpec.Run | hello.go:32-38 | the main loop applies rows in order until one panics, which ends the run with the store as that row found it; no account is ever removed (what else holds of it is stated by the run lemmas below) |
| HelloSpec.RunAppend | hello.go:32-38 | running two batches in turn is running them together, except that a panic in the first ends the run |
| HelloSpec.RunOpensAccountsOnlyByDeposit | hello.go:68-82 | a run keeps every account and opens accounts only for customers named in deposit rows, and for all of them when it does not panic |
| HelloSpec.DisputeTwiceBreaksBalance | hello.go:107-123 | a deposit of 5 disputed twice leaves available -5, hold 5, total 5: total != available + hold |
| HelloSpec.DisputeByTransactionIdPanics | hello.go:57-58 | a deposit with transaction id 7 followed by a dispute of transaction 7 panics with `TransactionNotFound` and ends the run before the next row |
| Hello.HandleDispute | hello.go:107-123 | the in-place dispute leaves the account as `HelloSpec.HandleDispute` says and returns its panic |
| Hello.HandleResolve | hello.go:137-147 | the in-place resolve leaves the account as `HelloSpec.HandleResolve` says and returns its panic |
| Hello.Dispatch | hello.go:52-65 | the switch on the row type updates the account and reports the panic as `HelloSpec.Dispatch` says |
| Hello.HandleRow | hello.go:43-66 | the store afterwards and the panic are those of `HelloSpec.HandleRow`; the store stays well formed |
| Hello.ProcessRows | hello.go:32-38 | the main loop ends with the store and the panic of `HelloSpec.Run` over the rows |
| Divergence.DepositRunsAgree | hello.go:43-66 | on deposit rows alone over a store with no frozen account, both variants compute the same store and hello.go does not panic |
| Divergence.FrozenAccountTakesDepositsOnlyInHello | hello.go:50-54 | a frozen account refuses a deposit in payment-handler.go and takes it in hello.go |
| Divergence.WithdrawGoesOppositeWays | hello.go:55-56 | a withdraw the funds cover debits the account in payment-handler.go and credits it in hello.go |
| Divergence.HelloIgnoresTransactionId | hello.go:57-62 | hello.go's dispute, chargeback and resolve do not depend on the row's transaction id |
| Divergence.DisputesAgreeIffFundsSuffice | hello.go:113-118 | the two disputes agree exactly when the transaction is missing or available covers it |
| Divergence.ResolvesAgreeIffHoldIsTheAmount | hello.go:144-146 | the two resolves agree exactly when the transaction is missing or the hold is exactly its amount |

## Findings

| source | as written | input that shows it | evidently intended | confidence | as-written member | corrected member |
|---|---|---|---|---|---|---|
| hello.go:56 | a withdraw passes `-amount` to `updateAccountBalance` with `isWithdrawal` true, which subtracts it again, so a withdraw credits the account | deposit 5, then withdraw 2 for the same customer: available 7 | debit the amount, as payment-handler.go:115 does | high; not executed | Divergence.WithdrawGoesOppositeWays | PaymentHandlerSpec.WithdrawDebits |
| hello.go:57-62 | dispute, chargeback and resolve look the transaction up by customer id | deposit(customer 1, transaction 7, 5), then dispute(1, 7): panics with transaction not found | look up by transaction id, as payment-handler.go:116-121 does | high; not executed | HelloSpec.DisputeByTransactionIdPanics | PaymentHandlerSpec.DisputeFindsTransactionById |
| hello.go:114-122 | a dispute short of funds sets hold to available and available to 0, then still subtracts and adds the full amount: available goes to minus the amount and the earlier hold is lost | deposit 5, dispute it twice: available -5, hold 5, total 5 | never overdraw and keep total == available + hold. The comment at hello.go:115 means to cap the dispute at the available funds; the correction here instead follows the later variant, payment-handler.go:179-181, which refuses the dispute | medium; not executed | HelloSpec.DisputeTwiceBreaksBalance | PaymentHandlerSpec.HandleDispute |

## Left out

- Command-line handling, opening and reading the CSV file, and skipping the header row (payment-handler.go:12-35, 81-93; hello.go:11-31) are I/O. The model starts from a sequence of records.
- Parsing (`parseTransaction`, payment-handler.go:56-79, and the `strconv` calls of hello.go:45-48) is not modelled. Records arrive already typed, so a row that fails to parse is outside the model. That covers both payment-handler.go's skipped row and the values hello.go uses after ignoring parse errors.
- `printCustomerAccounts` is output. The final store (`Customers.Snapshot()`) is what it would print.
- The `fmt.Printf` messages are modelled as the returned `Error` value. The `panic` message texts are not modelled either.
- In hello.go, a panic ends the process without printing the summary. The model reports the panic and the store at that point.
- Balances are float64 in the source and exact reals here. Rounding is not modelled.
- Non-finite amounts (NaN, ±Inf, which `strconv.ParseFloat` accepts) are outside the model. With a NaN balance every comparison in the guards is false.
