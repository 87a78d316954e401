/**
 * Scenarios of the endpoints over a concrete store: the situations the
 * integration tests exercise, and the payment boundaries around a balance.
 */
module LoanScenarios {
  import opened LoanEntity
  import opened LoanDtos
  import opened LoanStores
  import opened LoanManagement
  import opened PaymentRace

  /**
   * A new loan of 1000.00 and two interleaved payments of the same amount
   * (10.00 in the integration test; any amount up to the balance): one is
   * answered 200 with the balance reduced once, the other 409.
   */
  method ConcurrentPaymentsOnNewLoan(payment: int) returns (r1: Response, r2: Response)
    requires 0 < payment <= 100000
    ensures r1.Ok? && r1.loan.currentBalance == 100000 - payment && r1.loan.amount == 100000
    ensures r2 == Conflict(ModifiedByOther)
    ensures r1.StatusCode() == 200 && r2.StatusCode() == 409
  {
    var store := new LoanStore.Empty();
    var controller := new LoanManagementController(store);
    var payload := LoanDto(0, "Concurrency Test", 100000, 100000, Active);
    assert !IsWhiteSpace(payload.applicantName[0]);
    var created := controller.CreateLoan(payload);
    r1, r2 := InterleavedPayments(store, created.location, payment, payment);
  }

  /**
   * A loan of 1500.00 is created active with its whole amount outstanding;
   * a payment of exactly 1500.00 leaves 0.00 and "paid"; a further 0.01 is
   * refused as exceeding the balance.
   */
  method PayOffThenOverpay() returns (created: Response, paid: Response, extra: Response)
    ensures created.Created? && created.loan.currentBalance == 150000 && created.loan.status == Active
    ensures paid.Ok? && paid.loan.currentBalance == 0 && paid.loan.status == Paid
    ensures extra == BadRequest(PaymentExceedsBalance)
  {
    var store := new LoanStore.Empty();
    var controller := new LoanManagementController(store);
    var payload := LoanDto(0, "Test User", 150000, 150000, Active);
    assert !IsWhiteSpace(payload.applicantName[0]);
    created := controller.CreateLoan(payload);
    paid := controller.MakePayment(created.location, 150000);
    extra := controller.MakePayment(created.location, 1);
  }

  /** A loan read back after its creation has the five fields creation answered with. */
  method CreateThenGet(payload: LoanDto) returns (created: Response, fetched: Response)
    requires IsValid(payload)
    ensures created.Created? && created.location > 2
    ensures fetched == Ok(created.loan)
  {
    var store := new LoanStore.Seeded();
    var controller := new LoanManagementController(store);
    created := controller.CreateLoan(payload);
    fetched := controller.GetLoan(created.location);
  }

  /** Id 9999 does not exist in the seeded table: lookup and payment both answer 404. */
  method UnknownLoan() returns (lookup: Response, payment: Response)
    ensures lookup == NotFound(MissingLoanMessage(9999)) && lookup.StatusCode() == 404
    ensures payment == NotFound(LoanNotFound) && payment.StatusCode() == 404
  {
    var store := new LoanStore.Seeded();
    var controller := new LoanManagementController(store);
    lookup := controller.GetLoan(9999);
    payment := controller.MakePayment(9999, 1000);
  }

  /**
   * On seed loan 1 (balance 500.00): payments of 0 and -5.00 are refused as
   * non-positive, 500.01 as exceeding the balance, and 500.00 pays it off.
   */
  method PaymentBoundaries() returns (zero: Response, negative: Response, over: Response, exact: Response)
    ensures zero == BadRequest(NonPositivePayment) && negative == BadRequest(NonPositivePayment)
    ensures over == BadRequest(PaymentExceedsBalance)
    ensures exact.Ok? && exact.loan.currentBalance == 0 && exact.loan.status == Paid
  {
    var store := new LoanStore.Seeded();
    var controller := new LoanManagementController(store);
    zero := controller.MakePayment(1, 0);
    negative := controller.MakePayment(1, -500);
    over := controller.MakePayment(1, 50001);
    exact := controller.MakePayment(1, 50000);
  }
}
