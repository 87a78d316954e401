# Loan ledger rules of the loan-tracking Web API, in Dafny

This project models the business core of the loan-tracking Web API backend.
That core is the `Loan` entity, the `LoanDto` creation payload and its
validation, and the four endpoints of `LoanManagementController`. The
endpoints are: list loans, get one loan, create a loan, and make a payment.
A payment is guarded by the `RowVersion` optimistic-concurrency token.

Money is held as integer cents. The `Amount` and `CurrentBalance` columns are
`decimal(18,2)`, so cents are exact, and the DTO's minimum amount of 0.01
becomes 1.

## Files and modules

- `options.dfy` (`Options`): the `Option` type a lookup returns.
- `decimal_text.dfy` (`DecimalText`): the decimal text of an `int`, as used in the
  "Loan with ID {id} not found." message, with its inverse.
- `loan.dfy` (`LoanEntity`): the `Loan` row, its initialisers, the statuses
  "active"/"paid", and the ledger invariant `Consistent`.
- `loan_dto.dfy` (`LoanDtos`): the `LoanDto` record, JSON binding defaults,
  the attribute rules, the cross-field `Validate`, and the combined result.
- `loan_store.dfy` (`LoanStores`): the versioned store that replaces the EF
  Core context.
  - It is a class holding `map<int, Loan>`, the identity counter, and a
    store-wide row-version counter.
  - It offers `Find`, `FindAll`, `Insert` and `ConditionalUpdate`.
  - `ConditionalUpdate` is a compare-and-swap on the row version.
- `loan_management.dfy` (`LoanManagement`): the responses, the DTO projection,
  the payment rules, and the `LoanManagementController` class over a store.
  - `MakePayment` is split into a read phase and a commit phase:
    `BeginPayment`, which snapshots the row and its version, and
    `CompletePayment`, the conditional save.
- `payment_race.dfy` (`PaymentRace`): two payment requests whose reads both
  happen before either save.
- `scenarios.dfy` (`LoanScenarios`): verified scenarios over concrete stores,
  taken from the integration tests and the payment boundaries.

Each store write stamps the row with the next value of a store-wide counter,
as SQL Server's `rowversion` does. So every committed write changes the row's
version. A ghost map from each version to the row content written under it
lets the controller prove the following: when the version still matches at
save time, the row still equals the snapshot.

The ledger invariant holds for the seed rows. `CreateLoan`, `MakePayment`
and the interleaved payments all preserve it. The invariant is: amount > 0,
0 <= balance <= amount, status "paid" iff the balance is 0, and "active" iff
it is positive.

## Model

| member | source | states |
|---|---|---|
| `DecimalText.IntTextRoundTrip` | backend/src/Fundo.Applications.WebApi/Controllers/LoanManagementController.cs:55 | reading back the decimal text of an id interpolated into a message gives the id |
| `DecimalText.IntToTextInjective` | backend/src/Fundo.Applications.WebApi/Controllers/LoanManagementController.cs:55 | distinct ids have distinct decimal texts |
| `LoanEntity.ConsistentHasLedgerStatus` | backend/src/Fundo.Applications.WebApi/Model/Loan.cs:11 | a loan satisfying the ledger invariant has status "active" or "paid" and not both |
| `LoanDtos.Bind` | backend/src/Fundo.Applications.WebApi/Controllers/LoanDto.cs:16-45 | an omitted Id, Amount or CurrentBalance is 0, an omitted applicant name is "", an omitted status is "active"; supplied properties are taken as given |
| `LoanDtos.FieldErrors` | backend/src/Fundo.Applications.WebApi/Controllers/LoanDto.cs:15-45 | no attribute error iff Id = 0, the name has a non-white-space character, Amount >= 0.01 and Status = "active"; each rule's message, tagged with its property, is reported iff that rule fails; none is tagged CurrentBalance |
| `LoanDtos.Validate` | backend/src/Fundo.Applications.WebApi/Controllers/LoanDto.cs:48-57 | exactly one result, tagged CurrentBalance with the balance message, when CurrentBalance differs from Amount; none when equal |
| `LoanDtos.ValidationErrors` | backend/src/Fundo.Applications.WebApi/Controllers/LoanDto.cs:15-57 | no errors iff every rule holds; all attribute errors are reported; the cross-field result is reported when the attributes pass |
| `LoanDtos.ValidPayloadIsConsistentLoan` | backend/src/Fundo.Applications.WebApi/Controllers/LoanDto.cs:29-57 | a valid payload has a positive amount equal to its balance and status "active", which satisfies the ledger invariant |
| `LoanDtos.AcceptedPayloadExample` | backend/src/Fundo.Services.Tests/Integration/Fundo.Applications.WebApi/Controllers/LoanManagementControllerTests.cs:63-70 | Id 0, name "Test User", Amount = CurrentBalance = 1000, Status "active" is valid |
| `LoanDtos.RejectedPayloadExamples` | backend/src/Fundo.Services.Tests/Integration/Fundo.Applications.WebApi/Controllers/LoanManagementControllerTests.cs:86-90 | each of the five rejected test payloads is reported with the message the test expects |
| `LoanDtos.OmittedPropertiesValidation` | backend/src/Fundo.Applications.WebApi/Controllers/LoanDto.cs:15-45 | omitting Status passes its rule, omitting ApplicantName fails with the name message, omitting Id passes its rule |
| `LoanDtos.BlankNameRejected` | backend/src/Fundo.Applications.WebApi/Controllers/LoanDto.cs:22 | a name made only of white space is rejected with the name message |
| `LoanDtos.EmptyStatusPassesAsWritten` | backend/src/Fundo.Applications.WebApi/Controllers/LoanDto.cs:44-45 | as written, a payload with status "" passes validation although its status is neither "active" nor "paid" |
| `LoanDtos.CorrectedStatusRule` | backend/src/Fundo.Applications.WebApi/Controllers/LoanDto.cs:44-45 | the corrected rule accepts exactly the payloads accepted as written whose status is not ""; accepted statuses are ledger statuses |
| `LoanStores.LoanStore.Seeded` | backend/src/Fundo.Applications.WebApi/Data/AppDbContext.cs:33-36 | the initial table holds loan 1 (1500.00, balance 500.00, Maria Silva, active) and loan 2 (2000.00, balance 0.00, Juan Perez, paid), and satisfies the ledger invariant |
| `LoanStores.LoanStore.Find` | backend/src/Fundo.Applications.WebApi/Controllers/LoanManagementController.cs:51 | a lookup finds a row iff the id is stored, and then returns that row |
| `LoanStores.LoanStore.FindAll` | backend/src/Fundo.Applications.WebApi/Controllers/LoanManagementController.cs:35 | the listing contains every stored row exactly once and nothing else |
| `LoanStores.LoanStore.Insert` | backend/src/Fundo.Applications.WebApi/Controllers/LoanManagementController.cs:86-91 | the new row gets an id > 0 not in use before, and a new version; no other row changes |
| `LoanStores.LoanStore.ConditionalUpdate` | backend/src/Fundo.Applications.WebApi/Model/Loan.cs:13-15 | the update succeeds iff the row carries the expected version; on success only balance and status change and the version increases; on failure nothing changes |
| `LoanStores.LoanStore.SameVersionSameRow` | backend/src/Fundo.Applications.WebApi/Model/Loan.cs:13-15 | a row whose version equals a snapshot's version equals the snapshot |
| `LoanManagement.ToDtoHidesOnlyRowVersion` | backend/src/Fundo.Applications.WebApi/Controllers/LoanManagementController.cs:36-43 | two rows project to the same DTO iff they agree on Id, ApplicantName, Amount, CurrentBalance and Status; RowVersion is never exposed |
| `LoanManagement.MissingLoanMessageNamesId` | backend/src/Fundo.Applications.WebApi/Controllers/LoanManagementController.cs:55 | two lookups get the same not-found message iff they asked for the same id |
| `LoanManagement.NewEntityFromValidPayload` | backend/src/Fundo.Applications.WebApi/Controllers/LoanManagementController.cs:77-83 | the entity built from a valid payload satisfies the ledger invariant, is "active" with balance = amount, and projects back to the payload |
| `LoanManagement.PaymentChecksInOrder` | backend/src/Fundo.Applications.WebApi/Controllers/LoanManagementController.cs:109-118 | a missing loan gives NotFound whatever the amount; otherwise amount <= 0 gives the non-positive message, then amount > balance gives the exceeds message; the payment proceeds iff 0 < amount <= balance |
| `LoanManagement.AcceptedPaymentEffect` | backend/src/Fundo.Applications.WebApi/Controllers/LoanManagementController.cs:120-128 | an accepted payment leaves old balance minus amount, between 0 and the old balance; status "paid" iff the balance reaches 0, otherwise unchanged; only balance and status change; a payment equal to the balance yields 0 and "paid" |
| `LoanManagement.PaidIsTerminal` | backend/src/Fundo.Applications.WebApi/Controllers/LoanManagementController.cs:114-118 | a paid loan rejects every payment; a positive one is refused as exceeding the balance |
| `LoanManagement.SettleKeepsLedger` | backend/src/Fundo.Applications.WebApi/Controllers/LoanManagementController.cs:114-128 | over any series of payments the balance never grows or goes negative, the ledger invariant holds, only balance and status change, and a paid loan stays as it is |
| `LoanManagement.LoanManagementController.GetLoans` | backend/src/Fundo.Applications.WebApi/Controllers/LoanManagementController.cs:32-44 | 200 with every stored loan exactly once, each projected to its five DTO fields |
| `LoanManagement.LoanManagementController.GetLoan` | backend/src/Fundo.Applications.WebApi/Controllers/LoanManagementController.cs:48-66 | 200 with the stored loan's projection if it exists, else 404 "Loan with ID {id} not found."; the store is not modified |
| `LoanManagement.LoanManagementController.CreateLoan` | backend/src/Fundo.Applications.WebApi/Controllers/LoanManagementController.cs:72-97 | an invalid payload gets its validation results and nothing is written; a valid one is inserted under a fresh id > 0 and echoed back with only Id replaced; the stored row projects to the response; the ledger invariant is kept |
| `LoanManagement.LoanManagementController.BeginPayment` | backend/src/Fundo.Applications.WebApi/Controllers/LoanManagementController.cs:109-128 | the checks and the clamped deduction on the copy read give exactly the decision of the reference rules (the clamp never changes the result) |
| `LoanManagement.LoanManagementController.CompletePayment` | backend/src/Fundo.Applications.WebApi/Controllers/LoanManagementController.cs:139-157 | the save succeeds iff the row still has the version read, then the row equals the snapshot, only balance and status are written and the version changes; otherwise 409 and nothing is written |
| `LoanManagement.LoanManagementController.MakePayment` | backend/src/Fundo.Applications.WebApi/Controllers/LoanManagementController.cs:104-158 | a rejected payment writes nothing; an accepted one stores the reference update under a new version and returns the stored row's projection; the ledger invariant is kept |
| `PaymentRace.InterleavedPayments` | backend/src/Fundo.Applications.WebApi/Controllers/LoanManagementController.cs:139-156 | two payments read before either save never both succeed; if both pass their checks the first gets 200, the second 409, and the row holds the first payment only; if only one passes, it gets 200 and the row holds that payment; if neither passes, the table is unchanged; a rejected payment gets its rejection; the ledger invariant is kept |
| `LoanScenarios.ConcurrentPaymentsOnNewLoan` | backend/src/Fundo.Services.Tests/Integration/Fundo.Applications.WebApi/Controllers/LoanManagementControllerTests.cs:117-137 | a new 1000.00 loan and two interleaved equal payments give one 200 with the balance reduced once and one 409 |
| `LoanScenarios.PayOffThenOverpay` | backend/src/Fundo.Applications.WebApi/Controllers/LoanManagementController.cs:114-128 | a 1500.00 loan starts active at 1500.00; paying 1500.00 leaves 0.00 and "paid"; a further 0.01 is refused as exceeding |
| `LoanScenarios.CreateThenGet` | backend/src/Fundo.Applications.WebApi/Controllers/LoanManagementController.cs:94-96 | a loan fetched right after creation equals the created response |
| `LoanScenarios.UnknownLoan` | backend/src/Fundo.Applications.WebApi/Controllers/LoanManagementController.cs:51-56 | a lookup and a payment on an absent id both answer 404 |
| `LoanScenarios.PaymentBoundaries` | backend/src/Fundo.Applications.WebApi/Controllers/LoanManagementController.cs:114-118 | on a 500.00 balance, 0 and -5.00 are non-positive, 500.01 exceeds, and 500.00 pays the loan off |

## Findings

| source | as written | input that shows it | evidently intended | confidence | as-written member | corrected member |
|---|---|---|---|---|---|---|
| backend/src/Fundo.Applications.WebApi/Controllers/LoanDto.cs:44-45 | `[RegularExpression("active")]` is the only check on Status, and that attribute treats an empty string as valid | the payload Id 0, name "User", Amount = CurrentBalance = 1000, Status "" passes validation and creates a loan whose status is neither "active" nor "paid" | a new loan always starts "active", as the property's comment and the message "The status must be active" say | low to medium, not executed; holds only if the Web API project is built with nullable reference types disabled. The project file is not part of this model. With `<Nullable>enable</Nullable>`, the default for the minimal-hosting templates that Program.cs:9 follows, MVC adds an implicit `[Required]` to the non-nullable `string Status`, so "" is rejected and there is no bug. Also rests on the regular-expression attribute passing empty strings | `LoanDtos.EmptyStatusPassesAsWritten` | `LoanDtos.CorrectedStatusRule` |

The rest of the model validates payloads with the corrected rule (`LoanDtos.StatusOk`).

## Left out

- HTTP routing, JSON formatting of payloads and problem details, and the
  location header of the 201 response. Responses are a datatype carrying the
  result kind and its payload.
- The configurable `Task.Delay` between a payment's checks and its save. It
  only changes timing. The race is modelled as an explicit interleaving of
  read and save steps.
- Threads and the per-request `DbContext`. Each request is a controller
  object over the one shared store.
- Store-level failures other than a version mismatch, such as lost
  connections or column constraints. Loan deletion is also left out. A
  missing row at save time is treated like a version mismatch, as the save
  would report it.
- Schema migration and EF Core configuration. Only the seed rows are kept, as
  `LoanStore.Seeded`.
- Sub-cent decimal amounts and the rounding of the `decimal(18,2)` columns.
  All amounts are whole cents.
- The 32-bit range of `Id` and the 18-digit range of the money columns.
  Integers are unbounded.
- Null strings in a payload. Strings are never null here.
- `FindAll` returns rows in ascending id order. The source promises no order.
  Its contract only states that every row appears exactly once.
- ASP.NET Core only runs the cross-field `Validate` after every attribute
  passes. The model follows that order. Whether an implementation also
  reports the cross-field result next to attribute errors does not change
  which payloads are accepted.
- A payment body that is not a bare number is rejected by JSON binding
  before the action runs. This is not modelled; the test at
  LoanManagementControllerTests.cs:33-43 relies on it.
- The Angular front end, the HTTP service wrappers, Program.cs (dependency
  injection, logging, Swagger, startup migration), AppDbContext.cs and
  IAppDbContext.cs are not part of this model. The versioned store stands in
  for the last two.
