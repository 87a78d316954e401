/**
 * The loan endpoints: listing, lookup, creation and payment. Responses are
 * the action results the endpoints produce, with their payloads; the HTTP
 * routing and JSON formatting around them are not modelled.
 *
 * A payment is split into its read phase (`BeginPayment`: find the loan,
 * check the amount, compute the new balance and status on the tracked copy)
 * and its commit (`CompletePayment`: the save, a compare-and-swap on the
 * row version). `MakePayment` runs the two back to back; module
 * `PaymentRace` interleaves two of them.
 */
module LoanManagement {
  import opened Options
  import opened DecimalText
  import opened LoanEntity
  import opened LoanDtos
  import opened LoanStores

  datatype Response =
    | Ok(loan: LoanDto)
    | OkList(loans: seq<LoanDto>)
    | Created(location: int, loan: LoanDto)
    | NotFound(message: string)
    | BadRequest(message: string)
    | ValidationProblem(errors: seq<ValidationResult>)
    | Conflict(message: string)
  {
    /** The HTTP status code the result is sent with. */
    function StatusCode(): int {
      match this
      case Ok(_) => 200
      case OkList(_) => 200
      case Created(_, _) => 201
      case NotFound(_) => 404
      case BadRequest(_) => 400
      case ValidationProblem(_) => 400
      case Conflict(_) => 409
    }
  }

  const LoanNotFound: string := "Loan not found."
  const NonPositivePayment: string := "Payment amount must be greater than zero."
  const PaymentExceedsBalance: string := "Payment exceeds current balance."
  const ModifiedByOther: string := "The loan was modified by other process. Please refresh de data..."

  const MissingPrefix: string := "Loan with ID "
  const MissingSuffix: string := " not found."

  /** The projection every endpoint answers with: five columns, never the row version. */
  function ToDto(l: Loan): LoanDto {
    LoanDto(l.id, l.applicantName, l.amount, l.currentBalance, l.status)
  }

  /** Two rows project to the same DTO exactly when they differ at most in their row version. */
  lemma ToDtoHidesOnlyRowVersion(a: Loan, b: Loan)
    ensures ToDto(a) == ToDto(b) <==> a.(rowVersion := 0) == b.(rowVersion := 0)
  {
  }

  /** The message of a lookup by id that finds nothing. */
  function MissingLoanMessage(id: int): (m: string)
    ensures |m| == |MissingPrefix| + |IntToText(id)| + |MissingSuffix|
    ensures m[|MissingPrefix|..|m| - |MissingSuffix|] == IntToText(id)
  {
    MissingPrefix + IntToText(id) + MissingSuffix
  }

  /** The not-found message tells ids apart: it names the id that was asked for. */
  lemma MissingLoanMessageNamesId(m: int, n: int)
    ensures MissingLoanMessage(m) == MissingLoanMessage(n) <==> m == n
  {
    if MissingLoanMessage(m) == MissingLoanMessage(n) {
      IntToTextInjective(m, n);
    }
  }

  /** The entity `CreateLoan` builds: a new `Loan` with the four payload properties copied in. */
  function NewEntity(d: LoanDto): Loan {
    Unsaved.(applicantName := d.applicantName, amount := d.amount,
             currentBalance := d.currentBalance, status := d.status)
  }

  /**
   * A valid payload yields an entity that satisfies the ledger invariant,
   * starts "active" with its whole amount outstanding, and projects back to
   * the payload.
   */
  lemma NewEntityFromValidPayload(d: LoanDto)
    requires IsValid(d)
    ensures Consistent(NewEntity(d))
    ensures NewEntity(d).status == Active && NewEntity(d).currentBalance == NewEntity(d).amount
    ensures ToDto(NewEntity(d)) == d
  {
  }

  /**
   * Reference definition of an accepted payment: the balance drops by the
   * amount and the status turns "paid" exactly when nothing is left.
   */
  function AppliedPayment(l: Loan, amount: int): Loan {
    var balance := l.currentBalance - amount;
    l.(currentBalance := balance, status := if balance == 0 then Paid else l.status)
  }

  /** The outcome of a payment's read phase: a final response, or the row read and its update. */
  datatype PaymentStep = Done(response: Response) | Pending(original: Loan, updated: Loan)

  /** The checks of a payment, in the order the endpoint makes them. */
  function PaymentDecision(found: Option<Loan>, amount: int): PaymentStep {
    match found
    case None => Done(NotFound(LoanNotFound))
    case Some(l) =>
      if amount <= 0 then Done(BadRequest(NonPositivePayment))
      else if amount > l.currentBalance then Done(BadRequest(PaymentExceedsBalance))
      else Pending(l, AppliedPayment(l, amount))
  }

  /**
   * Which check rejects a payment: a missing loan before anything else, then a
   * non-positive amount, then an amount above the balance; a rejection is
   * never a success.
   */
  lemma PaymentChecksInOrder(found: Option<Loan>, amount: int)
    ensures PaymentDecision(found, amount) == Done(NotFound(LoanNotFound)) <==> found.None?
    ensures PaymentDecision(found, amount) == Done(BadRequest(NonPositivePayment))
      <==> found.Some? && amount <= 0
    ensures PaymentDecision(found, amount) == Done(BadRequest(PaymentExceedsBalance))
      <==> found.Some? && 0 < amount && amount > found.value.currentBalance
    ensures PaymentDecision(found, amount).Pending?
      <==> found.Some? && 0 < amount <= found.value.currentBalance
    ensures PaymentDecision(found, amount).Done? ==> !PaymentDecision(found, amount).response.Ok?
  {
  }

  /**
   * An accepted payment on a consistent loan: the new balance is the old one
   * less the amount, between zero and the old balance; the status is "paid"
   * exactly when the balance reaches zero and otherwise stays; nothing but
   * balance and status changes, and the loan stays consistent.
   */
  lemma AcceptedPaymentEffect(l: Loan, amount: int)
    requires Consistent(l) && 0 < amount <= l.currentBalance
    ensures var u := AppliedPayment(l, amount);
      && u.currentBalance == l.currentBalance - amount
      && 0 <= u.currentBalance < l.currentBalance
      && (u.status == Paid <==> u.currentBalance == 0)
      && (u.currentBalance > 0 ==> u.status == l.status)
      && u.(currentBalance := l.currentBalance, status := l.status) == l
      && Consistent(u)
    ensures amount == l.currentBalance ==>
      AppliedPayment(l, amount).currentBalance == 0 && AppliedPayment(l, amount).status == Paid
  {
  }

  /** A paid loan accepts no further payment: "paid" is terminal. */
  lemma PaidIsTerminal(l: Loan, amount: int)
    requires Consistent(l) && l.status == Paid
    ensures PaymentDecision(Some(l), amount).Done?
    ensures amount > 0 ==> PaymentDecision(Some(l), amount) == Done(BadRequest(PaymentExceedsBalance))
  {
  }

  /** A loan after a series of uncontended payments, each applied or rejected in turn. */
  function Settle(l: Loan, payments: seq<int>): Loan
    decreases |payments|
  {
    if payments == [] then l
    else
      var step := PaymentDecision(Some(l), payments[0]);
      Settle(if step.Pending? then step.updated else l, payments[1..])
  }

  /**
   * Over any series of payments a consistent loan stays consistent, its
   * balance never grows and never goes negative, only balance and status
   * change, and once "paid" it stays exactly as it is.
   */
  lemma {:induction false} SettleKeepsLedger(l: Loan, payments: seq<int>)
    requires Consistent(l)
    ensures var s := Settle(l, payments);
      && Consistent(s)
      && 0 <= s.currentBalance <= l.currentBalance
      && s.(currentBalance := l.currentBalance, status := l.status) == l
      && (l.status == Paid ==> s == l)
    decreases |payments|
  {
    if payments != [] {
      var step := PaymentDecision(Some(l), payments[0]);
      var next := if step.Pending? then step.updated else l;
      if step.Pending? {
        AcceptedPaymentEffect(l, payments[0]);
      }
      SettleKeepsLedger(next, payments[1..]);
    }
  }

  /** `dtos` presents every row of `rows` exactly once, projected. */
  ghost predicate Presents(dtos: seq<LoanDto>, rows: map<int, Loan>) {
    && (forall i :: 0 <= i < |dtos| ==> dtos[i].id in rows && dtos[i] == ToDto(rows[dtos[i].id]))
    && (forall i, j :: 0 <= i < j < |dtos| ==> dtos[i].id != dtos[j].id)
    && (forall id :: id in rows ==> exists i :: 0 <= i < |dtos| && dtos[i].id == id)
  }

  lemma ProjectionPresents(ls: seq<Loan>, rows: map<int, Loan>)
    requires Enumerates(ls, rows)
    ensures Presents(seq(|ls|, i requires 0 <= i < |ls| => ToDto(ls[i])), rows)
  {
    var dtos := seq(|ls|, i requires 0 <= i < |ls| => ToDto(ls[i]));
    forall id | id in rows ensures exists i :: 0 <= i < |dtos| && dtos[i].id == id {
      assert ListsId(ls, id);
      var i :| 0 <= i < |ls| && ls[i].id == id;
      assert dtos[i].id == id;
    }
  }

  class LoanManagementController {
    const context: LoanStore

    constructor(context: LoanStore)
      ensures this.context == context
    {
      this.context := context;
    }

    /** GET loan/: every stored loan, projected. */
    method GetLoans() returns (r: Response)
      requires context.Valid()
      ensures r.OkList? && Presents(r.loans, context.rows)
    {
      var ls := context.FindAll();
      ProjectionPresents(ls, context.rows);
      r := OkList(seq(|ls|, i requires 0 <= i < |ls| => ToDto(ls[i])));
    }

    /** GET loan/{id}: the loan projected, or a not-found message naming the id. */
    method GetLoan(id: int) returns (r: Response)
      ensures id in context.rows ==> r == Ok(ToDto(context.rows[id]))
      ensures id !in context.rows ==> r == NotFound(MissingLoanMessage(id))
    {
      var loan := context.Find(id);
      if loan.None? {
        return NotFound(MissingLoanMessage(id));
      }
      r := Ok(ToDto(loan.value));
    }

    /**
     * POST loan/: model validation runs before the action; an invalid payload
     * is answered with its validation results and nothing is written. A valid
     * one is inserted and echoed back with the id the store assigned.
     */
    method CreateLoan(loan: LoanDto) returns (r: Response)
      requires context.Valid()
      modifies context
      ensures context.Valid()
      ensures !IsValid(loan) ==> r == ValidationProblem(ValidationErrors(loan)) && unchanged(context)
      ensures IsValid(loan) ==>
        && r.Created?
        && r.loan == loan.(id := r.location)
        && r.location == old(context.lastId) + 1 && r.location > 0
        && r.location !in old(context.rows)
        && context.rows == old(context.rows)[r.location := NewEntity(loan).(id := r.location, rowVersion := context.lastVersion)]
        && ToDto(context.rows[r.location]) == r.loan
      ensures old(context.ConsistentRows()) ==> context.ConsistentRows()
    {
      var errors := ValidationErrors(loan);
      if errors != [] {
        return ValidationProblem(errors);
      }
      var entity := NewEntity(loan);
      NewEntityFromValidPayload(loan);
      var id := context.Insert(entity);
      r := Created(id, loan.(id := id));
    }

    /**
     * The read phase of POST loan/{id}/payment: find the loan, reject a
     * missing loan, a non-positive amount or one above the balance, then
     * deduct the amount on the copy read, clamping at zero and marking it
     * "paid" when nothing is left.
     */
    method BeginPayment(id: int, paymentAmount: int) returns (step: PaymentStep)
      ensures step == PaymentDecision(context.Find(id), paymentAmount)
    {
      var found := context.Find(id);
      if found.None? {
        return Done(NotFound(LoanNotFound));
      }
      if paymentAmount <= 0 {
        return Done(BadRequest(NonPositivePayment));
      }
      if paymentAmount > found.value.currentBalance {
        return Done(BadRequest(PaymentExceedsBalance));
      }
      var loan := found.value;
      loan := loan.(currentBalance := loan.currentBalance - paymentAmount);
      if loan.currentBalance <= 0 {
        loan := loan.(currentBalance := 0, status := Paid);
      }
      step := Pending(found.value, loan);
    }

    /**
     * The commit of a payment: the save succeeds only if the row still
     * carries the version that was read, and then writes the new balance and
     * status; otherwise the answer is a conflict and nothing is written.
     */
    method CompletePayment(step: PaymentStep) returns (r: Response)
      requires context.Valid()
      requires step.Pending? ==> context.Issued(step.original)
      modifies context
      ensures context.Valid() && context.lastId == old(context.lastId)
      ensures forall v :: v in old(context.history) ==> v in context.history && context.history[v] == old(context.history)[v]
      ensures step.Done? ==> r == step.response && unchanged(context)
      ensures step.Pending? ==>
        var id := step.original.id;
        && (r.Ok? <==> id in old(context.rows) && old(context.rows)[id].rowVersion == step.original.rowVersion)
        && (r.Ok? ==>
              && old(context.rows)[id] == step.original
              && r == Ok(ToDto(step.updated))
              && context.rows == old(context.rows)[id := step.original.(
                   currentBalance := step.updated.currentBalance,
                   status := step.updated.status,
                   rowVersion := context.lastVersion)]
              && context.rows[id].rowVersion != step.original.rowVersion)
        && (!r.Ok? ==> r == Conflict(ModifiedByOther) && unchanged(context))
    {
      if step.Done? {
        return step.response;
      }
      var loan := step.updated;
      var saved := context.ConditionalUpdate(step.original.id, step.original.rowVersion,
                                             loan.currentBalance, loan.status);
      if !saved {
        return Conflict(ModifiedByOther);
      }
      r := Ok(ToDto(loan));
    }

    /**
     * POST loan/{id}/payment with nothing in between its read and its save:
     * the decision of the checks, and for an accepted payment the row
     * updated as `AppliedPayment` says, under a new version, and returned.
     */
    method MakePayment(id: int, paymentAmount: int) returns (r: Response)
      requires context.Valid()
      modifies context
      ensures context.Valid()
      ensures var step := PaymentDecision(old(context.Find(id)), paymentAmount);
        && (step.Done? ==> r == step.response && unchanged(context))
        && (step.Pending? ==>
              && context.rows == old(context.rows)[id := step.updated.(rowVersion := context.lastVersion)]
              && r == Ok(ToDto(context.rows[id]))
              && context.rows[id].rowVersion != old(context.rows)[id].rowVersion)
      ensures old(context.ConsistentRows()) ==> context.ConsistentRows()
    {
      var step := BeginPayment(id, paymentAmount);
      if step.Pending? && Consistent(step.original) {
        AcceptedPaymentEffect(step.original, paymentAmount);
      }
      r := CompletePayment(step);
    }
  }
}
