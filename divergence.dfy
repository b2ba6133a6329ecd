/** Where hello.go and payment-handler.go agree and where they part ways,
    stated over their two models. */
module Divergence {
  import opened Ledger
  import PH = PaymentHandlerSpec
  import H = HelloSpec

  predicate NoneFrozen(s: Store) {
    forall c :: c in s ==> !s[c].frozen
  }

  predicate AllDeposits(records: seq<Record>) {
    forall i :: 0 <= i < |records| ==> records[i].txType == Deposit
  }

  /** On deposits alone, over a store with no frozen account, the two
      variants compute the same store and hello.go never panics. */
  lemma {:induction false} DepositRunsAgree(s: Store, records: seq<Record>)
    requires NoneFrozen(s) && AllDeposits(records)
    ensures H.Run(s, records) == H.Outcome(PH.Run(s, records), None)
    decreases |records|
  {
    if records != [] {
      var r := records[0];
      var ph, h := PH.HandleTransaction(s, r), H.HandleRow(s, r);
      assert ph.store == h.store && h.panic.None?;
      assert NoneFrozen(ph.store) by {
        forall c | c in ph.store ensures !ph.store[c].frozen {
          if c != r.customerId {
            assert ph.store[c] == s[c];
          }
        }
      }
      assert AllDeposits(records[1..]) by {
        forall i | 0 <= i < |records[1..]| ensures records[1..][i].txType == Deposit {
          assert records[1..][i] == records[i + 1];
        }
      }
      DepositRunsAgree(ph.store, records[1..]);
    }
  }

  /** A frozen account refuses a deposit in payment-handler.go and takes it
      in hello.go. */
  lemma FrozenAccountTakesDepositsOnlyInHello(s: Store, customerId: int, transactionId: int, amount: real)
    requires customerId in s && s[customerId].frozen
    ensures PH.HandleTransaction(s, Record(Deposit, customerId, transactionId, amount))
         == PH.Outcome(s, Some(AccountFrozen))
    ensures
      var h := H.HandleRow(s, Record(Deposit, customerId, transactionId, amount));
      h.panic.None? && h.store[customerId].available == s[customerId].available + amount
  {
  }

  /** The same withdraw row debits the account in payment-handler.go and
      credits it in hello.go. */
  lemma WithdrawGoesOppositeWays(s: Store, customerId: int, transactionId: int, amount: real)
    requires customerId in s && !s[customerId].frozen
    requires 0.0 <= amount <= s[customerId].available
    ensures
      var ph := PH.HandleTransaction(s, Record(Withdraw, customerId, transactionId, amount));
      ph.error.None? && ph.store[customerId].available == s[customerId].available - amount
    ensures
      var h := H.HandleRow(s, Record(Withdraw, customerId, transactionId, amount));
      h.panic.None? && h.store[customerId].available == s[customerId].available + amount
  {
  }

  /** hello.go ignores the transaction id of dispute, chargeback and resolve
      rows: only the customer id selects the transaction. */
  lemma HelloIgnoresTransactionId(s: Store, row: Record, otherId: int)
    requires row.txType in {Dispute, Chargeback, Resolve}
    ensures H.HandleRow(s, row) == H.HandleRow(s, row.(transactionId := otherId))
  {
  }

  /** The two disputes agree exactly when the transaction is missing or the
      available funds cover it. */
  lemma DisputesAgreeIffFundsSuffice(a: AccountState, transactionId: int)
    ensures H.HandleDispute(a, transactionId) == PH.HandleDispute(a, transactionId) <==>
      transactionId !in a.transactions || a.available >= a.transactions[transactionId].amount
  {
  }

  /** The two resolves agree exactly when the transaction is missing or its
      amount is the whole hold. */
  lemma ResolvesAgreeIffHoldIsTheAmount(a: AccountState, transactionId: int)
    ensures H.HandleResolve(a, transactionId) == PH.HandleResolve(a, transactionId) <==>
      transactionId !in a.transactions || a.hold == a.transactions[transactionId].amount
  {
  }
}
