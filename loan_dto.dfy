/**
 * The creation payload `LoanDto` and its validation: the attributes on its
 * properties (`Range`, `Required`, `RegularExpression`) and the cross-field
 * `Validate`. Money is in integer cents, so the attribute minimum 0.01 is 1.
 */
module LoanDtos {
  import opened Options
  import opened LoanEntity

  datatype LoanDto = LoanDto(
    id: int,
    applicantName: string,
    amount: int,
    currentBalance: int,
    status: string)

  /** The property a validation result is tagged with. */
  datatype Member = IdMember | ApplicantNameMember | AmountMember | CurrentBalanceMember | StatusMember

  /** A validation result: a message and the members it is reported on. */
  datatype ValidationResult = ValidationResult(message: string, members: seq<Member>)

  const IdMessage: string := "The Id of the loan must be zero"
  const NameMessage: string := "The applicant name can not be empty"
  const AmountMessage: string := "The amount must be greater than zero"
  const StatusMessage: string := "The status must be active"
  const BalanceMessage: string := "The amount must be equals to current balance"

  /** 0.01 in cents. */
  const MinAmount: int := 1

  /**
   * JSON binding of a creation request: a property the body omits keeps its
   * initialiser (0 for the numbers, "" for the name, "active" for the status).
   */
  function Bind(id: Option<int>, applicantName: Option<string>, amount: Option<int>,
                currentBalance: Option<int>, status: Option<string>): (d: LoanDto)
    ensures id.None? ==> d.id == 0
    ensures applicantName.None? ==> d.applicantName == ""
    ensures amount.None? ==> d.amount == 0
    ensures currentBalance.None? ==> d.currentBalance == 0
    ensures status.None? ==> d.status == Active
    ensures id.Some? ==> d.id == id.value
    ensures applicantName.Some? ==> d.applicantName == applicantName.value
    ensures amount.Some? ==> d.amount == amount.value
    ensures currentBalance.Some? ==> d.currentBalance == currentBalance.value
    ensures status.Some? ==> d.status == status.value
  {
    LoanDto(
      if id.Some? then id.value else 0,
      if applicantName.Some? then applicantName.value else "",
      if amount.Some? then amount.value else 0,
      if currentBalance.Some? then currentBalance.value else 0,
      if status.Some? then status.value else Active)
  }

  /** The characters .NET's `char.IsWhiteSpace` accepts. */
  predicate IsWhiteSpace(c: char) {
    || '\U{0009}' <= c <= '\U{000D}'
    || c == '\U{0020}' || c == '\U{0085}' || c == '\U{00A0}' || c == '\U{1680}'
    || '\U{2000}' <= c <= '\U{200A}'
    || c == '\U{2028}' || c == '\U{2029}' || c == '\U{202F}' || c == '\U{205F}' || c == '\U{3000}'
  }

  /** `[Required]` on a string: it must hold a character other than white space. */
  predicate HasText(s: string) {
    exists i :: 0 <= i < |s| && !IsWhiteSpace(s[i])
  }

  /** `[Range(0, 0)]` on Id. */
  predicate IdOk(d: LoanDto) {
    d.id == 0
  }

  predicate NameOk(d: LoanDto) {
    HasText(d.applicantName)
  }

  /** `[Range(0.01, double.MaxValue)]` on Amount. */
  predicate AmountOk(d: LoanDto) {
    d.amount >= MinAmount
  }

  /**
   * The status rule the payload is meant to meet: exactly "active". This is
   * the corrected form of `[RegularExpression("active")]`; the attribute as the
   * framework applies it is `StatusAttributePasses` below.
   */
  predicate StatusOk(d: LoanDto) {
    d.status == Active
  }

  /**
   * The attribute checks, in property order (Id, ApplicantName, Amount,
   * Status); each failed check yields one result tagged with its property.
   */
  function FieldErrors(d: LoanDto): (errs: seq<ValidationResult>)
    ensures errs == [] <==> IdOk(d) && NameOk(d) && AmountOk(d) && StatusOk(d)
    ensures ValidationResult(IdMessage, [IdMember]) in errs <==> d.id != 0
    ensures ValidationResult(NameMessage, [ApplicantNameMember]) in errs <==> !HasText(d.applicantName)
    ensures ValidationResult(AmountMessage, [AmountMember]) in errs <==> d.amount < MinAmount
    ensures ValidationResult(StatusMessage, [StatusMember]) in errs <==> d.status != Active
    ensures forall e :: e in errs ==> CurrentBalanceMember !in e.members
  {
    (if IdOk(d) then [] else [ValidationResult(IdMessage, [IdMember])])
    + (if NameOk(d) then [] else [ValidationResult(NameMessage, [ApplicantNameMember])])
    + (if AmountOk(d) then [] else [ValidationResult(AmountMessage, [AmountMember])])
    + (if StatusOk(d) then [] else [ValidationResult(StatusMessage, [StatusMember])])
  }

  /** The cross-field check: at creation the balance must equal the amount. */
  function Validate(d: LoanDto): (errs: seq<ValidationResult>)
    ensures |errs| == (if d.currentBalance == d.amount then 0 else 1)
    ensures forall e :: e in errs ==> e.members == [CurrentBalanceMember] && e.message == BalanceMessage
  {
    if d.currentBalance != d.amount then
      [ValidationResult(BalanceMessage, [CurrentBalanceMember])]
    else
      []
  }

  /** Every rule of the payload. */
  predicate IsValid(d: LoanDto) {
    IdOk(d) && NameOk(d) && AmountOk(d) && StatusOk(d) && d.currentBalance == d.amount
  }

  /**
   * What model validation reports: the attribute results, or, when every
   * attribute passes, the results of the cross-field check.
   */
  function ValidationErrors(d: LoanDto): (errs: seq<ValidationResult>)
    ensures errs == [] <==> IsValid(d)
    ensures (forall e :: e in FieldErrors(d) ==> e in errs)
    ensures FieldErrors(d) == [] ==> errs == Validate(d)
  {
    var fieldErrors := FieldErrors(d);
    if fieldErrors != [] then fieldErrors else Validate(d)
  }

  /** A valid payload describes a loan that satisfies the ledger invariant from its first instant. */
  lemma ValidPayloadIsConsistentLoan(d: LoanDto)
    requires IsValid(d)
    ensures d.amount > 0 && d.currentBalance == d.amount && d.status == Active
    ensures Consistent(Loan(0, d.amount, d.currentBalance, d.applicantName, d.status, 0))
  {
  }

  /** The payload the successful creation test posts is accepted. */
  lemma AcceptedPayloadExample()
    ensures IsValid(LoanDto(0, "Test User", 100000, 100000, Active))
  {
    assert !IsWhiteSpace("Test User"[0]);
  }

  /** The five rejected payloads of the creation tests, each with the message it expects. */
  lemma RejectedPayloadExamples()
    ensures ValidationResult(IdMessage, [IdMember]) in ValidationErrors(LoanDto(100, "User", 100000, 100000, Active))
    ensures ValidationResult(AmountMessage, [AmountMember]) in ValidationErrors(LoanDto(0, "User", -5000, -5000, Active))
    ensures ValidationErrors(LoanDto(0, "User", 100000, 50000, Active)) == [ValidationResult(BalanceMessage, [CurrentBalanceMember])]
    ensures ValidationResult(NameMessage, [ApplicantNameMember]) in ValidationErrors(LoanDto(0, "", 100000, 100000, Active))
    ensures ValidationResult(StatusMessage, [StatusMember]) in ValidationErrors(LoanDto(0, "User", 100000, 100000, "inactive"))
  {
    assert !IsWhiteSpace("User"[0]);
  }

  /**
   * Omitting the status is accepted (its initialiser is "active"); omitting
   * the applicant name is not (its initialiser is "").
   */
  lemma OmittedPropertiesValidation(id: Option<int>, amount: Option<int>, currentBalance: Option<int>,
                                    applicantName: Option<string>, status: Option<string>)
    ensures StatusOk(Bind(id, applicantName, amount, currentBalance, None))
    ensures ValidationResult(NameMessage, [ApplicantNameMember]) in ValidationErrors(Bind(id, None, amount, currentBalance, status))
    ensures IdOk(Bind(None, applicantName, amount, currentBalance, status))
  {
  }

  /** A name made only of white space is rejected as empty. */
  lemma BlankNameRejected(d: LoanDto)
    requires forall i :: 0 <= i < |d.applicantName| ==> IsWhiteSpace(d.applicantName[i])
    ensures !IsValid(d)
    ensures ValidationResult(NameMessage, [ApplicantNameMember]) in ValidationErrors(d)
  {
  }

  // ---- As written: `[RegularExpression]` lets an empty status through ----

  /**
   * The status attribute as the framework applies it: a null or empty value
   * is not matched against the pattern and passes.
   */
  predicate StatusAttributePasses(s: string) {
    s == "" || s == Active
  }

  predicate IsValidAsWritten(d: LoanDto) {
    IdOk(d) && NameOk(d) && AmountOk(d) && StatusAttributePasses(d.status) && d.currentBalance == d.amount
  }

  /**
   * A payload with status "" passes validation as written, and the loan it
   * would create carries a status that is neither "active" nor "paid".
   */
  lemma EmptyStatusPassesAsWritten()
    ensures var d := LoanDto(0, "User", 100000, 100000, "");
      IsValidAsWritten(d) && !IsValid(d) && !IsLedgerStatus(d.status)
  {
    assert !IsWhiteSpace("User"[0]);
  }

  /** The corrected status rule admits exactly the payloads that start a loan as "active". */
  lemma CorrectedStatusRule(d: LoanDto)
    ensures IsValid(d) <==> IsValidAsWritten(d) && d.status != ""
    ensures IsValid(d) ==> IsLedgerStatus(d.status)
  {
  }
}
