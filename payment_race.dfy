/**
 * Two payment requests on the same loan whose reads both happen before
 * either save: each request has its own controller over the one store, and
 * the steps run in the order read, read, save, save.
 */
module PaymentRace {
  import opened LoanEntity
  import opened LoanStores
  import opened LoanManagement

  /**
   * Never two successes. When both reads accept their payment, the first save
   * wins, the second is a conflict, and the row holds exactly the first
   * payment. A payment rejected at its read gets its rejection and writes
   * nothing, so when only one passes its checks it succeeds alone, and when
   * neither does the table is unchanged.
   */
  method InterleavedPayments(store: LoanStore, id: int, first: int, second: int)
    returns (r1: Response, r2: Response)
    requires store.Valid()
    modifies store
    ensures store.Valid()
    ensures !(r1.Ok? && r2.Ok?)
    ensures var d1 := PaymentDecision(old(store.Find(id)), first);
      var d2 := PaymentDecision(old(store.Find(id)), second);
      && (d1.Done? ==> r1 == d1.response)
      && (d2.Done? ==> r2 == d2.response)
      && (d1.Pending? && d2.Pending? ==>
            && id in store.rows
            && r1 == Ok(ToDto(store.rows[id]))
            && r2 == Conflict(ModifiedByOther)
            && store.rows == old(store.rows)[id := d1.updated.(rowVersion := store.lastVersion)])
      && (d1.Pending? && d2.Done? ==>
            && id in store.rows
            && r1 == Ok(ToDto(store.rows[id]))
            && store.rows == old(store.rows)[id := d1.updated.(rowVersion := store.lastVersion)])
      && (d1.Done? && d2.Pending? ==>
            && id in store.rows
            && r2 == Ok(ToDto(store.rows[id]))
            && store.rows == old(store.rows)[id := d2.updated.(rowVersion := store.lastVersion)])
      && (d1.Done? && d2.Done? ==> store.rows == old(store.rows))
    ensures old(store.ConsistentRows()) ==> store.ConsistentRows()
  {
    var c1 := new LoanManagementController(store);
    var c2 := new LoanManagementController(store);
    var s1 := c1.BeginPayment(id, first);
    var s2 := c2.BeginPayment(id, second);
    if s1.Pending? && Consistent(s1.original) {
      AcceptedPaymentEffect(s1.original, first);
    }
    r1 := c1.CompletePayment(s1);
    if s2.Pending? && Consistent(s2.original) {
      AcceptedPaymentEffect(s2.original, second);
    }
    r2 := c2.CompletePayment(s2);
  }
}
