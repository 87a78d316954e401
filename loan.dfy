/**
 * The `Loan` entity: one row of the Loans table. Money is held in integer
 * cents, which is exact for the `decimal(18,2)` columns `Amount` and
 * `CurrentBalance`. `rowVersion` is the `[Timestamp]` concurrency token; the
 * store stamps it on every write, and 0 stands for the token of an entity
 * that has not been saved yet.
 */
module LoanEntity {

  const Active: string := "active"
  const Paid: string := "paid"

  datatype Loan = Loan(
    id: int,
    amount: int,
    currentBalance: int,
    applicantName: string,
    status: string,
    rowVersion: nat)

  /** `new Loan()` before any property is assigned: the declared initialisers. */
  const Unsaved: Loan := Loan(0, 0, 0, "", Active, 0)

  /** The two values the status column is meant to take. */
  predicate IsLedgerStatus(s: string) {
    s == Active || s == Paid
  }

  /**
   * The ledger invariant of a persisted loan: a positive principal, a balance
   * between zero and the principal, and a status that is "paid" exactly when
   * nothing is left to pay and "active" exactly when something is.
   */
  predicate Consistent(l: Loan) {
    && 0 < l.amount
    && 0 <= l.currentBalance <= l.amount
    && (l.status == Paid <==> l.currentBalance == 0)
    && (l.status == Active <==> l.currentBalance > 0)
  }

  /** A consistent loan carries one of the two ledger statuses. */
  lemma ConsistentHasLedgerStatus(l: Loan)
    requires Consistent(l)
    ensures IsLedgerStatus(l.status)
    ensures l.status == Active <==> l.status != Paid
  {
  }
}
